/** The longest-common-subsequence line diff printed for a conflicting generated file. */
module LineDiff {
  import opened Lines

  const MAX_DIFFABLE_LINES := 4000

  datatype Edit = Keep(line: string) | Remove(line: string) | Add(line: string)

  // ----- What a diff is -----

  /** The text an edit script starts from, and the text it produces. */
  function OldOf(script: seq<Edit>): seq<string> {
    if script == [] then []
    else (if script[0].Add? then [] else [script[0].line]) + OldOf(script[1..])
  }

  function NewOf(script: seq<Edit>): seq<string> {
    if script == [] then []
    else (if script[0].Remove? then [] else [script[0].line]) + NewOf(script[1..])
  }

  function Kept(script: seq<Edit>): nat {
    if script == [] then 0
    else (if script[0].Keep? then 1 else 0) + Kept(script[1..])
  }

  /** Added plus removed lines. */
  function Cost(script: seq<Edit>): nat {
    if script == [] then 0
    else (if script[0].Keep? then 0 else 1) + Cost(script[1..])
  }

  /** A common subsequence of `a` and `b`, given by the positions it is read from: strictly increasing in both
      texts, with equal lines at each pair. */
  ghost predicate Common(a: seq<string>, b: seq<string>, at: seq<(nat, nat)>) {
    && (forall k | 0 <= k < |at| :: at[k].0 < |a| && at[k].1 < |b| && a[at[k].0] == b[at[k].1])
    && (forall k, l | 0 <= k < l < |at| :: at[k].0 < at[l].0 && at[k].1 < at[l].1)
  }

  // ----- The table and the backtrack, as functions of the suffixes -----

  /** The entry the table holds for the suffixes `a` and `b`. */
  function Lcs(a: seq<string>, b: seq<string>): nat
    decreases |a| + |b|
  {
    if a == [] || b == [] then 0
    else if a[0] == b[0] then Lcs(a[1..], b[1..]) + 1
    else if Lcs(a[1..], b) >= Lcs(a, b[1..]) then Lcs(a[1..], b)
    else Lcs(a, b[1..])
  }

  /** The script the backtrack emits from the suffixes `a` and `b`: on a tie it removes first. */
  function Script(a: seq<string>, b: seq<string>): seq<Edit>
    decreases |a| + |b|
  {
    if a == [] && b == [] then []
    else if b == [] then [Remove(a[0])] + Script(a[1..], b)
    else if a == [] then [Add(b[0])] + Script(a, b[1..])
    else if a[0] == b[0] then [Keep(a[0])] + Script(a[1..], b[1..])
    else if Lcs(a[1..], b) >= Lcs(a, b[1..]) then [Remove(a[0])] + Script(a[1..], b)
    else [Add(b[0])] + Script(a, b[1..])
  }

  function Mark(e: Edit): string {
    match e
    case Keep(line) => "  " + line
    case Remove(line) => "- " + line
    case Add(line) => "+ " + line
  }

  function Marked(script: seq<Edit>): (r: seq<string>)
    ensures |r| == |script|
  {
    seq(|script|, k requires 0 <= k < |script| => Mark(script[k]))
  }

  function Digits(n: nat): string {
    if n < 10 then ["0123456789"[n]] else Digits(n / 10) + ["0123456789"[n % 10]]
  }

  function Omitted(n: nat, m: nat): string {
    "(diff omitted: " + Digits(n) + " vs " + Digits(m) + " lines exceeds the " +
    Digits(MAX_DIFFABLE_LINES) + "-line safety limit for a real, computed diff)"
  }

  predicate Diffable(before: string, after: string) {
    |Split(before, '\n')| <= MAX_DIFFABLE_LINES && |Split(after, '\n')| <= MAX_DIFFABLE_LINES
  }

  function DiffText(before: string, after: string): string {
    var a, b := Split(before, '\n'), Split(after, '\n');
    if Diffable(before, after) then Join(Marked(Script(a, b)), '\n') else Omitted(|a|, |b|)
  }

  // ----- lineDiff -----

  /** The table filled from the bottom right: each entry is the optimum for its two suffixes. */
  method FillTable(a: seq<string>, b: seq<string>) returns (dp: array2<nat>)
    ensures fresh(dp) && dp.Length0 == |a| + 1 && dp.Length1 == |b| + 1
    ensures forall i, j | 0 <= i <= |a| && 0 <= j <= |b| :: dp[i, j] == Lcs(a[i..], b[j..])
  {
    var n, m := |a|, |b|;
    dp := new nat[n + 1, m + 1]((_, _) => 0);
    var i := n;
    while i > 0
      invariant 0 <= i <= n
      invariant forall k, l | i <= k <= n && 0 <= l <= m :: dp[k, l] == Lcs(a[k..], b[l..])
      invariant forall k | 0 <= k < i :: dp[k, m] == 0
    {
      i := i - 1;
      var j := m;
      while j > 0
        invariant 0 <= j <= m
        invariant forall k, l | i < k <= n && 0 <= l <= m :: dp[k, l] == Lcs(a[k..], b[l..])
        invariant forall l | j <= l <= m :: dp[i, l] == Lcs(a[i..], b[l..])
        invariant forall k | 0 <= k < i :: dp[k, m] == 0
      {
        j := j - 1;
        TableStep(a, b, i, j);
        if a[i] == b[j] {
          dp[i, j] := dp[i + 1, j + 1] + 1;
        } else {
          dp[i, j] := if dp[i + 1, j] >= dp[i, j + 1] then dp[i + 1, j] else dp[i, j + 1];
        }
      }
    }
  }

  lemma TableStep(a: seq<string>, b: seq<string>, i: nat, j: nat)
    requires i < |a| && j < |b|
    ensures Lcs(a[i..], b[j..]) ==
            if a[i] == b[j] then Lcs(a[i + 1..], b[j + 1..]) + 1
            else if Lcs(a[i + 1..], b[j..]) >= Lcs(a[i..], b[j + 1..]) then Lcs(a[i + 1..], b[j..])
            else Lcs(a[i..], b[j + 1..])
  {
    assert a[i..][1..] == a[i + 1..] && b[j..][1..] == b[j + 1..];
  }

  /** The first edit of the rest of the script, and what remains after it. */
  lemma ScriptStep(a: seq<string>, b: seq<string>, i: nat, j: nat)
    requires i <= |a| && j <= |b| && (i < |a| || j < |b|)
    ensures Script(a[i..], b[j..]) ==
      if j < |b| && (i == |a| || (a[i] != b[j] && Lcs(a[i + 1..], b[j..]) < Lcs(a[i..], b[j + 1..]))) then
        [Add(b[j])] + Script(a[i..], b[j + 1..])
      else if j == |b| || a[i] != b[j] then [Remove(a[i])] + Script(a[i + 1..], b[j..])
      else [Keep(a[i])] + Script(a[i + 1..], b[j + 1..])
  {
    hide Lcs;
    assert i < |a| ==> a[i..][1..] == a[i + 1..];
    assert j < |b| ==> b[j..][1..] == b[j + 1..];
  }

  /** The walk stands at (i, j) having printed `out`, the marks of the first edits `done`. */
  ghost predicate Printed(a: seq<string>, b: seq<string>, i: nat, j: nat, done: seq<Edit>, out: seq<string>) {
    && i <= |a| && j <= |b|
    && out == Marked(done)
    && done + Script(a[i..], b[j..]) == Script(a, b)
  }

  lemma PrintOne(a: seq<string>, b: seq<string>, i: nat, j: nat, done: seq<Edit>, out: seq<string>,
                 e: Edit, i': nat, j': nat)
    requires Printed(a, b, i, j, done, out) && i' <= |a| && j' <= |b|
    requires Script(a[i..], b[j..]) == [e] + Script(a[i'..], b[j'..])
    ensures Printed(a, b, i', j', done + [e], out + [Mark(e)])
  {
    hide Script;
    assert done + ([e] + Script(a[i'..], b[j'..])) == done + [e] + Script(a[i'..], b[j'..]);
  }

  lemma PrintedAtEnds(a: seq<string>, b: seq<string>, done: seq<Edit>, out: seq<string>)
    ensures Printed(a, b, 0, 0, [], [])
    ensures Printed(a, b, |a|, |b|, done, out) ==> out == Marked(Script(a, b))
  {
    assert a[0..] == a && b[0..] == b;
    assert Script(a[|a|..], b[|b|..]) == [];
    assert done + [] == done;
  }

  /** The walk from the top left through the filled table. */
  method Backtrack(a: seq<string>, b: seq<string>, dp: array2<nat>) returns (out: seq<string>)
    requires dp.Length0 == |a| + 1 && dp.Length1 == |b| + 1
    requires forall i, j | 0 <= i <= |a| && 0 <= j <= |b| :: dp[i, j] == Lcs(a[i..], b[j..])
    ensures out == Marked(Script(a, b))
  {
    hide Script, Lcs, Printed, Marked;
    var n, m := |a|, |b|;
    out := [];
    ghost var done: seq<Edit> := [];
    var i, j := 0, 0;
    PrintedAtEnds(a, b, done, out);
    while i < n && j < m
      invariant 0 <= i <= n && 0 <= j <= m && Printed(a, b, i, j, done, out)
      decreases n - i + m - j
    {
      ScriptStep(a, b, i, j);
      if a[i] == b[j] {
        PrintOne(a, b, i, j, done, out, Keep(a[i]), i + 1, j + 1);
        out, done := out + ["  " + a[i]], done + [Keep(a[i])];
        i, j := i + 1, j + 1;
      } else if dp[i + 1, j] >= dp[i, j + 1] {
        PrintOne(a, b, i, j, done, out, Remove(a[i]), i + 1, j);
        out, done := out + ["- " + a[i]], done + [Remove(a[i])];
        i := i + 1;
      } else {
        PrintOne(a, b, i, j, done, out, Add(b[j]), i, j + 1);
        out, done := out + ["+ " + b[j]], done + [Add(b[j])];
        j := j + 1;
      }
    }
    while i < n
      invariant 0 <= i <= n && 0 <= j <= m && (i == n || j == m) && Printed(a, b, i, j, done, out)
    {
      ScriptStep(a, b, i, j);
      PrintOne(a, b, i, j, done, out, Remove(a[i]), i + 1, j);
      out, done := out + ["- " + a[i]], done + [Remove(a[i])];
      i := i + 1;
    }
    while j < m
      invariant 0 <= j <= m && Printed(a, b, n, j, done, out)
    {
      ScriptStep(a, b, n, j);
      PrintOne(a, b, n, j, done, out, Add(b[j]), n, j + 1);
      out, done := out + ["+ " + b[j]], done + [Add(b[j])];
      j := j + 1;
    }
    PrintedAtEnds(a, b, done, out);
  }

  method LineDiff(before: string, after: string) returns (text: string)
    ensures text == DiffText(before, after)
  {
    var a, b := Split(before, '\n'), Split(after, '\n');
    var n, m := |a|, |b|;
    if n > MAX_DIFFABLE_LINES || m > MAX_DIFFABLE_LINES {
      return Omitted(n, m);
    }
    var dp := FillTable(a, b);
    var out := Backtrack(a, b, dp);
    text := Join(out, '\n');
  }

  // ----- The table is optimal -----

  ghost function Shift(at: seq<(nat, nat)>, i: nat, j: nat): seq<(nat, nat)>
    requires forall k | 0 <= k < |at| :: at[k].0 >= i && at[k].1 >= j
  {
    seq(|at|, k requires 0 <= k < |at| => (at[k].0 - i, at[k].1 - j))
  }

  lemma ShiftedCommon(a: seq<string>, b: seq<string>, at: seq<(nat, nat)>, i: nat, j: nat)
    requires Common(a, b, at) && i <= |a| && j <= |b| && forall k | 0 <= k < |at| :: at[k].0 >= i && at[k].1 >= j
    ensures Common(a[i..], b[j..], Shift(at, i, j))
  {
  }

  /** No common subsequence is longer than the entry. */
  lemma {:induction false} NoLongerCommon(a: seq<string>, b: seq<string>, at: seq<(nat, nat)>)
    requires Common(a, b, at)
    ensures |at| <= Lcs(a, b)
    decreases |a| + |b|
  {
    if at != [] {
      assert a != [] && b != [] by { assert at[0].0 < |a|; }
      if a[0] == b[0] {
        var rest := at[1..];
        assert forall k | 0 <= k < |rest| :: rest[k] == at[k + 1] && at[0].0 < rest[k].0 && at[0].1 < rest[k].1;
        ShiftedCommon(a, b, rest, 1, 1);
        NoLongerCommon(a[1..], b[1..], Shift(rest, 1, 1));
      } else if at[0].0 > 0 {
        assert forall k | 0 <= k < |at| :: at[k].0 >= at[0].0;
        ShiftedCommon(a, b, at, 1, 0);
        NoLongerCommon(a[1..], b[0..], Shift(at, 1, 0));
        assert b[0..] == b;
      } else {
        assert forall k | 0 <= k < |at| :: at[k].1 >= at[0].1;
        ShiftedCommon(a, b, at, 0, 1);
        NoLongerCommon(a[0..], b[1..], Shift(at, 0, 1));
        assert a[0..] == a;
      }
    }
  }

  ghost function Unshift(at: seq<(nat, nat)>, i: nat, j: nat): seq<(nat, nat)> {
    seq(|at|, k requires 0 <= k < |at| => (at[k].0 + i, at[k].1 + j))
  }

  /** Some common subsequence is as long as the entry. */
  lemma {:induction false} LongestCommon(a: seq<string>, b: seq<string>) returns (at: seq<(nat, nat)>)
    ensures Common(a, b, at) && |at| == Lcs(a, b)
    decreases |a| + |b|
  {
    if a == [] || b == [] {
      at := [];
    } else if a[0] == b[0] {
      var rest := LongestCommon(a[1..], b[1..]);
      at := [(0, 0)] + Unshift(rest, 1, 1);
    } else if Lcs(a[1..], b) >= Lcs(a, b[1..]) {
      var rest := LongestCommon(a[1..], b);
      at := Unshift(rest, 1, 0);
    } else {
      var rest := LongestCommon(a, b[1..]);
      at := Unshift(rest, 0, 1);
    }
  }

  /** Every filled entry is the maximum length over all common subsequences of its two suffixes. */
  lemma TableIsOptimal(a: seq<string>, b: seq<string>, i: nat, j: nat)
    requires i <= |a| && j <= |b|
    ensures forall at | Common(a[i..], b[j..], at) :: |at| <= Lcs(a[i..], b[j..])
    ensures exists at :: Common(a[i..], b[j..], at) && |at| == Lcs(a[i..], b[j..])
  {
    var at := LongestCommon(a[i..], b[j..]);
    forall at | Common(a[i..], b[j..], at) ensures |at| <= Lcs(a[i..], b[j..]) {
      NoLongerCommon(a[i..], b[j..], at);
    }
  }

  // ----- The printed script is correct and minimal -----

  lemma {:induction false} ScriptEdits(a: seq<string>, b: seq<string>)
    ensures OldOf(Script(a, b)) == a && NewOf(Script(a, b)) == b
    ensures Kept(Script(a, b)) == Lcs(a, b)
    decreases |a| + |b|
  {
    if a == [] && b == [] {
    } else if b == [] || (a != [] && a[0] != b[0] && Lcs(a[1..], b) >= Lcs(a, b[1..])) {
      ScriptEdits(a[1..], b);
      assert a == [a[0]] + a[1..];
    } else if a == [] || a[0] != b[0] {
      ScriptEdits(a, b[1..]);
      assert b == [b[0]] + b[1..];
    } else {
      ScriptEdits(a[1..], b[1..]);
      assert a == [a[0]] + a[1..] && b == [b[0]] + b[1..];
    }
  }

  /** A common subsequence of two tails, moved down past `i` and `j` leading lines. */
  lemma CommonBelow(a: seq<string>, b: seq<string>, at: seq<(nat, nat)>, i: nat, j: nat)
    requires i <= |a| && j <= |b| && Common(a[i..], b[j..], at)
    ensures Common(a, b, Unshift(at, i, j))
    ensures i >= 1 && j >= 1 && a[0] == b[0] ==> Common(a, b, [(0, 0)] + Unshift(at, i, j))
  {
  }

  /** The unchanged lines of any edit script are a common subsequence of the two texts. */
  lemma {:induction false} KeptIsCommon(script: seq<Edit>) returns (at: seq<(nat, nat)>)
    ensures Common(OldOf(script), NewOf(script), at) && |at| == Kept(script)
  {
    hide Common;
    if script == [] {
      at := [];
      NothingCommon();
    } else {
      var rest := KeptIsCommon(script[1..]);
      var a, b := OldOf(script), NewOf(script);
      var i, j := if script[0].Add? then 0 else 1, if script[0].Remove? then 0 else 1;
      assert a[i..] == OldOf(script[1..]) && b[j..] == NewOf(script[1..]);
      CommonBelow(a, b, rest, i, j);
      at := (if script[0].Keep? then [(0, 0)] else []) + Unshift(rest, i, j);
      assert [] + Unshift(rest, i, j) == Unshift(rest, i, j);
    }
  }

  lemma NothingCommon()
    ensures Common([], [], [])
  {
  }

  lemma {:induction false} CostCounts(script: seq<Edit>)
    ensures Cost(script) + 2 * Kept(script) == |OldOf(script)| + |NewOf(script)|
  {
    if script != [] {
      CostCounts(script[1..]);
    }
  }

  /** No edit script between the two texts has fewer added plus removed lines than the printed one. */
  lemma ScriptIsMinimal(before: string, after: string, other: seq<Edit>)
    requires OldOf(other) == Split(before, '\n') && NewOf(other) == Split(after, '\n')
    ensures Cost(Script(Split(before, '\n'), Split(after, '\n'))) <= Cost(other)
  {
    var a, b := Split(before, '\n'), Split(after, '\n');
    ScriptEdits(a, b);
    CostCounts(Script(a, b));
    CostCounts(other);
    var at := KeptIsCommon(other);
    NoLongerCommon(a, b, at);
  }

  // ----- The printed text loses nothing -----

  predicate HasMark(line: string, mark: string) {
    |line| >= 2 && line[..2] == mark
  }

  /** The lines of one side, read back from printed lines by their two-character marks. */
  function ReadSide(printed: seq<string>, own: string): seq<string> {
    if printed == [] then []
    else
      var line := printed[0];
      (if HasMark(line, "  ") || HasMark(line, own) then [line[2..]] else []) + ReadSide(printed[1..], own)
  }

  function ReadOld(text: string): string {
    Join(ReadSide(Split(text, '\n'), "- "), '\n')
  }

  function ReadNew(text: string): string {
    Join(ReadSide(Split(text, '\n'), "+ "), '\n')
  }

  lemma MarkReads(e: Edit)
    ensures HasMark(Mark(e), "  ") <==> e.Keep?
    ensures HasMark(Mark(e), "- ") <==> e.Remove?
    ensures HasMark(Mark(e), "+ ") <==> e.Add?
    ensures |Mark(e)| >= 2 && Mark(e)[2..] == e.line
  {
    assert Mark(e)[..2] == if e.Keep? then "  " else if e.Remove? then "- " else "+ ";
  }

  lemma {:induction false} SidesReadBack(script: seq<Edit>)
    ensures ReadSide(Marked(script), "- ") == OldOf(script)
    ensures ReadSide(Marked(script), "+ ") == NewOf(script)
  {
    if script != [] {
      SidesReadBack(script[1..]);
      MarkReads(script[0]);
      assert Marked(script)[0] == Mark(script[0]) && Marked(script)[1..] == Marked(script[1..]);
    }
  }

  lemma {:induction false} MarkedLinesWhole(script: seq<Edit>)
    requires forall line | line in OldOf(script) || line in NewOf(script) :: '\n' !in line
    ensures forall line | line in Marked(script) :: '\n' !in line
  {
    if script != [] {
      var e := script[0];
      assert e.line in OldOf(script) || e.line in NewOf(script);
      assert forall ch | ch in Mark(e) :: ch in "  " || ch in "- " || ch in "+ " || ch in e.line;
      MarkedLinesWhole(script[1..]);
      assert Marked(script) == [Mark(e)] + Marked(script[1..]);
    }
  }

  /** From the printed text alone, by its marks, both original texts are recovered exactly. */
  lemma DiffLosesNothing(before: string, after: string)
    requires |Split(before, '\n')| <= 4000 && |Split(after, '\n')| <= 4000
    ensures ReadOld(DiffText(before, after)) == before
    ensures ReadNew(DiffText(before, after)) == after
  {
    var a, b := Split(before, '\n'), Split(after, '\n');
    var script := Script(a, b);
    ScriptEdits(a, b);
    MarkedLinesWhole(script);
    assert script != [];
    SplitOfJoin(Marked(script), '\n');
    SidesReadBack(script);
    JoinOfSplit(before, '\n');
    JoinOfSplit(after, '\n');
  }

  // ----- Where the lines stand -----

  /** Dropping a line never makes a common subsequence longer. */
  lemma ShorterText(a: seq<string>, b: seq<string>)
    requires b != []
    ensures Lcs(a, b[1..]) <= Lcs(a, b)
  {
    var at := LongestCommon(a, b[1..]);
    assert a[0..] == a;
    CommonBelow(a, b, at, 0, 1);
    NoLongerCommon(a, b, Unshift(at, 0, 1));
  }

  ghost predicate Tidy(s: seq<Edit>) {
    forall k | 0 < k < |s| :: s[k - 1].Add? ==> !s[k].Remove?
  }

  lemma TidyAfter(e: Edit, rest: seq<Edit>)
    requires Tidy(rest) && (e.Add? && rest != [] ==> !rest[0].Remove?)
    ensures Tidy([e] + rest)
  {
    var s := [e] + rest;
    forall k | 0 < k < |s| && s[k - 1].Add?
      ensures !s[k].Remove?
    {
      assert s[k] == rest[k - 1] && (k > 1 ==> s[k - 1] == rest[k - 2]);
    }
  }

  /** In each changed block the removed lines come before the added ones. */
  lemma {:induction false} RemovalsFirst(a: seq<string>, b: seq<string>)
    ensures Tidy(Script(a, b))
    decreases |a| + |b|
  {
    var s := Script(a, b);
    if s != [] {
      hide Lcs, Tidy;
      if s[0].Keep? {
        RemovalsFirst(a[1..], b[1..]);
        TidyAfter(s[0], Script(a[1..], b[1..]));
      } else if s[0].Remove? {
        RemovalsFirst(a[1..], b);
        TidyAfter(s[0], Script(a[1..], b));
      } else {
        RemovalsFirst(a, b[1..]);
        NoRemovalAfterAdding(a, b);
        TidyAfter(s[0], Script(a, b[1..]));
      }
    }
  }

  lemma NoRemovalAfterAdding(a: seq<string>, b: seq<string>)
    requires b != [] && Script(a, b)[0].Add?
    ensures var rest := Script(a, b[1..]); rest != [] ==> !rest[0].Remove?
  {
    if a != [] && a[0] != b[0] {
      assert Lcs(a[1..], b) < Lcs(a, b[1..]);
      ShorterText(a[1..], b);
    }
  }

  // ----- Texts too long to diff -----

  function ReadDigits(s: string): int {
    if s == "" then 0 else 10 * ReadDigits(s[..|s| - 1]) + (s[|s| - 1] as int - '0' as int)
  }

  lemma DigitOf(d: nat)
    requires d < 10
    ensures var c := "0123456789"[d]; '0' <= c <= '9' && c as int - '0' as int == d
  {
  }

  /** A printed count is decimal and reads back as that count. */
  lemma {:induction false} DigitsRead(n: nat)
    ensures forall c | c in Digits(n) :: '0' <= c <= '9'
    ensures ReadDigits(Digits(n)) == n
  {
    DigitOf(n % 10);
    if n >= 10 {
      DigitsRead(n / 10);
      var front, last := Digits(n / 10), "0123456789"[n % 10];
      assert Digits(n) == front + [last];
      hide Digits;
      assert (front + [last])[..|front|] == front;
    } else {
      assert Digits(n)[..0] == "";
    }
  }

  /** More than 4000 lines on either side are not compared; the text printed instead names both counts. */
  lemma TooLongOmitted(before: string, after: string)
    requires |Split(before, '\n')| > 4000 || |Split(after, '\n')| > 4000
    ensures DiffText(before, after) ==
            "(diff omitted: " + Digits(|Split(before, '\n')|) + " vs " + Digits(|Split(after, '\n')|) +
            " lines exceeds the " + "4000" + "-line safety limit for a real, computed diff)"
  {
    assert Digits(4) == "4" && Digits(40) == "40" && Digits(400) == "400" && Digits(4000) == "4000";
  }
}
