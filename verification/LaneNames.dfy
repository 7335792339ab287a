/** Names of lanes: the slug of a step id, the lane id and the lane branch. The step hash and JavaScript's lower-casing
    are parameters, so everything here holds for whatever functions they are. */
module LaneNames {
  import opened Lines

  const SLUG_MAX_READABLE_LENGTH := 40
  const SLUG_HASH_LENGTH := 8

  /** `hash` gives the first eight hexadecimal digits of the step id's digest. */
  datatype Naming = Naming(lower: string -> string, hash: string -> string)
  {
    ghost predicate Valid() {
      forall s: string :: |hash(s)| == SLUG_HASH_LENGTH && forall i | 0 <= i < |hash(s)| :: IsWord(hash(s)[i])
    }
  }

  predicate IsWord(c: char) {
    'a' <= c <= 'z' || '0' <= c <= '9'
  }

  // ----- The replacements of slugifyStepId, one by one -----

  /** How many characters at the start of `s` are not word characters. */
  function Gap(s: string): (n: nat)
    ensures n <= |s|
  {
    if s != "" && !IsWord(s[0]) then 1 + Gap(s[1..]) else 0
  }

  /** `.replace(/[^a-z0-9]+/g, '-')` */
  function Hyphenated(s: string): string
    decreases |s|
  {
    if s == "" then ""
    else if IsWord(s[0]) then [s[0]] + Hyphenated(s[1..])
    else "-" + Hyphenated(s[1 + Gap(s[1..])..])
  }

  function TrimStart(s: string): string {
    if s != "" && s[0] == '-' then TrimStart(s[1..]) else s
  }

  /** `.replace(/-+$/g, '')` */
  function TrimEnd(s: string): string {
    if s != "" && s[|s| - 1] == '-' then TrimEnd(s[..|s| - 1]) else s
  }

  function Readable(n: Naming, stepId: string): string {
    var trimmed := TrimEnd(TrimStart(Hyphenated(n.lower(stepId))));
    TrimEnd(if |trimmed| <= SLUG_MAX_READABLE_LENGTH then trimmed else trimmed[..SLUG_MAX_READABLE_LENGTH])
  }

  function Slug(n: Naming, stepId: string): string {
    var readable := Readable(n, stepId);
    (if readable == "" then "step" else readable) + "-" + n.hash(stepId)
  }

  function BranchOf(runId: string, slug: string): string {
    "forge/" + runId + "/" + slug
  }

  function LaneOf(runId: string, slug: string): string {
    runId + "-" + slug
  }

  // ----- The form of a slug -----

  /** Word characters in which hyphens are single. */
  predicate Hyphens(s: string) {
    && (forall i | 0 <= i < |s| :: IsWord(s[i]) || s[i] == '-')
    && (forall i | 0 < i < |s| :: s[i - 1] != '-' || s[i] != '-')
  }

  /** Words joined by single hyphens. */
  predicate Words(s: string) {
    s != "" && Hyphens(s) && s[0] != '-' && s[|s| - 1] != '-'
  }

  lemma {:induction false} GapEnds(s: string)
    ensures Gap(s) < |s| ==> IsWord(s[Gap(s)])
  {
    if s != "" && !IsWord(s[0]) {
      GapEnds(s[1..]);
    }
  }

  lemma {:induction false} HyphenatedForm(s: string)
    ensures Hyphens(Hyphenated(s))
    ensures s != "" && IsWord(s[0]) ==> Hyphenated(s) != "" && Hyphenated(s)[0] != '-'
    decreases |s|
  {
    if s != "" {
      if IsWord(s[0]) {
        HyphenatedForm(s[1..]);
      } else {
        GapEnds(s[1..]);
        HyphenatedForm(s[1 + Gap(s[1..])..]);
      }
    }
  }

  lemma {:induction false} TrimStartForm(s: string)
    requires Hyphens(s)
    ensures Hyphens(TrimStart(s)) && |TrimStart(s)| <= |s|
    ensures TrimStart(s) != "" ==> TrimStart(s)[0] != '-'
  {
    if s != "" && s[0] == '-' {
      assert forall i | 0 <= i < |s[1..]| :: s[1..][i] == s[i + 1];
      TrimStartForm(s[1..]);
    }
  }

  lemma {:induction false} TrimEndForm(s: string)
    requires Hyphens(s)
    ensures Hyphens(TrimEnd(s)) && TrimEnd(s) <= s
    ensures TrimEnd(s) != "" ==> TrimEnd(s)[|TrimEnd(s)| - 1] != '-'
  {
    if s != "" && s[|s| - 1] == '-' {
      TrimEndForm(s[..|s| - 1]);
    }
  }

  lemma ReadableForm(n: Naming, stepId: string)
    ensures var r := Readable(n, stepId);
      |r| <= SLUG_MAX_READABLE_LENGTH && (r != "" ==> Words(r))
  {
    hide Hyphenated, TrimStart, TrimEnd;
    var h := Hyphenated(n.lower(stepId));
    HyphenatedForm(n.lower(stepId));
    TrimStartForm(h);
    var started := TrimStart(h);
    TrimEndForm(started);
    var trimmed := TrimEnd(started);
    var cut := if |trimmed| <= SLUG_MAX_READABLE_LENGTH then trimmed else trimmed[..SLUG_MAX_READABLE_LENGTH];
    TrimEndForm(cut);
    assert TrimEnd(cut) != "" ==> TrimEnd(cut)[0] == started[0];
  }

  /** Every slug is words joined by single hyphens, the last of them the eight-digit hash, at most 49 characters long:
      safe as a path segment and as the last part of a branch name. */
  lemma SlugForm(n: Naming, stepId: string)
    requires n.Valid()
    ensures var slug := Slug(n, stepId);
      && Words(slug) && |slug| <= SLUG_MAX_READABLE_LENGTH + 1 + SLUG_HASH_LENGTH
      && |slug| >= 1 + SLUG_HASH_LENGTH
      && slug[|slug| - SLUG_HASH_LENGTH..] == n.hash(stepId) && slug[|slug| - SLUG_HASH_LENGTH - 1] == '-'
      && '/' !in slug
  {
    ReadableForm(n, stepId);
    var r := Readable(n, stepId);
    hide Readable;
    var base := if r == "" then "step" else r;
    assert Words(base);
    var slug, hash := Slug(n, stepId), n.hash(stepId);
    assert slug == base + "-" + hash;
    forall i | 0 <= i < |slug|
      ensures IsWord(slug[i]) || slug[i] == '-'
      ensures i > |base| ==> IsWord(slug[i])
    {
      if i > |base| {
        assert slug[i] == hash[i - |base| - 1];
      }
    }
  }

  // ----- What a slug spells -----

  /** How many characters at the start of `s` are word characters. */
  function WordLength(s: string): (n: nat)
    ensures n <= |s| && (s != "" && IsWord(s[0]) ==> n > 0)
  {
    if s != "" && IsWord(s[0]) then 1 + WordLength(s[1..]) else 0
  }

  /** The words of a text: its maximal runs of word characters. */
  function WordsIn(s: string): seq<string>
    decreases |s|
  {
    if s == "" then []
    else if !IsWord(s[0]) then WordsIn(s[1..])
    else [s[..WordLength(s)]] + WordsIn(s[WordLength(s)..])
  }

  lemma {:induction false} WordsAfterGap(s: string)
    ensures WordsIn(s) == WordsIn(s[Gap(s)..])
  {
    if s != "" && !IsWord(s[0]) {
      WordsAfterGap(s[1..]);
      assert s[Gap(s)..] == s[1..][Gap(s[1..])..];
    }
  }

  lemma {:induction false} TrimEndKeeps(a: string, t: string)
    requires TrimEnd(t) != "" || (a != "" && a[|a| - 1] != '-')
    ensures TrimEnd(a + t) == a + TrimEnd(t)
    decreases |t|
  {
    if t == "" {
      assert a + t == a;
    } else if t[|t| - 1] == '-' {
      assert (a + t)[..|a + t| - 1] == a + t[..|t| - 1];
      TrimEndKeeps(a, t[..|t| - 1]);
    }
  }

  /** From a word on, hyphenating and trimming the end spells the words joined by hyphens. */
  lemma {:induction false} HyphenatedSpells(s: string)
    requires s != "" && IsWord(s[0])
    ensures TrimEnd(Hyphenated(s)) == Join(WordsIn(s), '-') != ""
    decreases |s|
  {
    hide TrimEnd, Hyphenated, WordsIn, Join, Gap, WordLength;
    var rest := s[1..];
    if rest == "" {
      LastLetter(s);
      SpellsAlone(s);
    } else if IsWord(rest[0]) {
      HyphenatedSpells(rest);
      LongerFirstWord(s);
      SpellsBefore([s[0]], Hyphenated(rest));
    } else {
      var next := rest[Gap(rest)..];
      GapAfterLetter(s);
      if next == "" {
        TrimNothing();
        SpellsAlone([s[0]]);
      } else {
        HyphenatedSpells(next);
        SpellsBefore("-", Hyphenated(next));
        SpellsBefore([s[0]], "-" + Hyphenated(next));
      }
    }
  }

  lemma SpellsBefore(a: string, t: string)
    requires TrimEnd(t) != ""
    ensures TrimEnd(a + t) == a + TrimEnd(t) != ""
  {
    TrimEndKeeps(a, t);
  }

  lemma SpellsAlone(c: string)
    requires |c| == 1 && c[0] != '-'
    ensures TrimEnd(c) == TrimEnd(c + ("-" + "")) == c
  {
    TrimEndKeeps(c, "");
    TrimEndKeeps(c, "-");
    TrimNothing();
    assert c + "" == c && c + ("-" + "") == c + "-";
  }

  lemma LastLetter(s: string)
    requires |s| == 1 && IsWord(s[0])
    ensures Hyphenated(s) == s && Join(WordsIn(s), '-') == s
  {
    assert s == [s[0]] && WordLength(s) == 1 && s[..1] == s && s[1..] == "";
    assert Hyphenated(s) == [s[0]] + "";
    assert WordsIn(s) == [s] + WordsIn("");
  }

  /** A letter followed by a gap: the gap becomes one hyphen, and the letter a word of its own. */
  lemma GapAfterLetter(s: string)
    requires |s| > 1 && IsWord(s[0]) && !IsWord(s[1])
    ensures var next := s[1..][Gap(s[1..])..];
      && (next != "" ==> IsWord(next[0]))
      && Hyphenated(s) == [s[0]] + ("-" + Hyphenated(next))
      && Join(WordsIn(s), '-') == [s[0]] + if next == "" then "" else "-" + Join(WordsIn(next), '-')
  {
    var c, rest := [s[0]], s[1..];
    var next := rest[Gap(rest)..];
    GapLeaves(rest);
    assert s[..WordLength(s)] == c && s[WordLength(s)..] == rest;
    WordsAfterGap(rest);
    assert WordsIn(s) == [c] + WordsIn(next);
    if next != "" {
      assert WordsIn(next) != [];
      assert Join([c] + WordsIn(next), '-') == c + ['-'] + Join(WordsIn(next), '-');
    }
  }

  lemma TrimNothing()
    ensures TrimEnd("") == TrimEnd("-") == "" && Hyphenated("") == "" && "-" + "" == "-"
  {
    assert "-"[..0] == "";
  }

  /** After the first character that is not of a word, the gap goes on to the next word or the end. */
  lemma GapLeaves(s: string)
    requires s != "" && !IsWord(s[0])
    ensures Gap(s) == 1 + Gap(s[1..]) && Hyphenated(s) == "-" + Hyphenated(s[Gap(s)..])
    ensures Gap(s) < |s| ==> IsWord(s[Gap(s)])
  {
    GapEnds(s);
  }

  lemma LongerFirstWord(s: string)
    requires |s| > 1 && IsWord(s[0]) && IsWord(s[1])
    ensures Hyphenated(s) == [s[0]] + Hyphenated(s[1..])
    ensures Join(WordsIn(s), '-') == [s[0]] + Join(WordsIn(s[1..]), '-')
  {
    var rest := s[1..];
    var k := WordLength(rest);
    assert WordLength(s) == k + 1 && s[..k + 1] == [s[0]] + rest[..k] && s[k + 1..] == rest[k..];
    JoinLonger([s[0]], rest[..k], WordsIn(rest[k..]));
  }

  lemma JoinLonger(c: string, word: string, more: seq<string>)
    ensures Join([c + word] + more, '-') == c + Join([word] + more, '-')
  {
    var a, b := [c + word] + more, [word] + more;
    assert a[1..] == more == b[1..];
  }

  /** A slug spells the words of the lower-cased step id joined by hyphens, cut after 40 characters and never ending in
      a hyphen, or `step` if it has no words, and then the hash. */
  lemma SlugSpells(n: Naming, stepId: string)
    ensures var words := Join(WordsIn(n.lower(stepId)), '-');
      Slug(n, stepId) ==
      (if words == "" then "step" else if |words| <= 40 then words else TrimEnd(words[..40])) + "-" + n.hash(stepId)
    ensures var words := Join(WordsIn(n.lower(stepId)), '-');
      words != "" ==> words[0] != '-' && words[|words| - 1] != '-'
  {
    var s := n.lower(stepId);
    var from := s[Gap(s)..];
    WordsAfterGap(s);
    if from == "" {
      OnlyGap(s);
    } else {
      GapEnds(s);
      HyphenatedSpells(from);
      HyphenatedForm(from);
      TrimStartsAtWord(s);
      TrimEndForm(Hyphenated(from));
      var words := TrimEnd(Hyphenated(from));
      hide Hyphenated, WordsIn, Join;
      TrimIdle(words);
      if |words| > 40 {
        TrimIdleCut(words);
      }
    }
  }

  lemma OnlyGap(s: string)
    requires s[Gap(s)..] == ""
    ensures TrimEnd(TrimStart(Hyphenated(s))) == ""
  {
    if s != "" {
      GapLeaves(s);
      TrimNothing();
      assert TrimStart("-") == TrimStart("") == "" by { assert "-"[1..] == ""; }
    }
  }

  lemma TrimStartsAtWord(s: string)
    requires Gap(s) < |s|
    ensures TrimStart(Hyphenated(s)) == Hyphenated(s[Gap(s)..])
  {
    var from := s[Gap(s)..];
    GapEnds(s);
    HyphenatedForm(from);
    if !IsWord(s[0]) {
      GapLeaves(s);
      assert Hyphenated(s)[1..] == Hyphenated(from);
    }
  }

  lemma TrimIdle(words: string)
    requires words != "" ==> words[|words| - 1] != '-'
    ensures TrimEnd(words) == words
  {
  }

  /** What is left after a cut still starts with a word character, so it is not empty. */
  lemma TrimIdleCut(words: string)
    requires |words| > 40 && words[0] != '-'
    ensures TrimEnd(words[..40]) != ""
  {
    var cut := words[..40];
    assert cut == [cut[0]] + cut[1..];
    TrimEndKeeps([cut[0]], cut[1..]);
  }

  // ----- Names identify their step and run -----

  /** Neither the lane id nor the branch can be shared by two lanes: if the hash does not confuse the two step ids,
      equal names mean the same run and the same step, even where run ids contain hyphens. */
  lemma NamesInjective(n: Naming, run1: string, step1: string, run2: string, step2: string)
    requires n.Valid() && (n.hash(step1) == n.hash(step2) ==> step1 == step2)
    ensures LaneOf(run1, Slug(n, step1)) == LaneOf(run2, Slug(n, step2)) <==> run1 == run2 && step1 == step2
    ensures BranchOf(run1, Slug(n, step1)) == BranchOf(run2, Slug(n, step2)) <==> run1 == run2 && step1 == step2
  {
    hide Slug;
    SlugForm(n, step1);
    SlugForm(n, step2);
    var s1, s2 := Slug(n, step1), Slug(n, step2);
    SameEnd(run1 + "-", s1, run2 + "-", s2, SLUG_HASH_LENGTH);
    SameEnd("forge/" + run1 + "/", s1, "forge/" + run2 + "/", s2, SLUG_HASH_LENGTH);
    if step1 == step2 {
      SameFront(run1, "-" + s1, run2);
      SameFront("forge/" + run1, "/" + s1, "forge/" + run2);
      assert LaneOf(run1, s1) == run1 + ("-" + s1) && LaneOf(run2, s1) == run2 + ("-" + s1);
      assert BranchOf(run1, s1) == "forge/" + run1 + ("/" + s1) && BranchOf(run2, s1) == "forge/" + run2 + ("/" + s1);
      assert ("forge/" + run1)[6..] == run1 && ("forge/" + run2)[6..] == run2;
    }
  }

  lemma SameEnd(a: string, s: string, b: string, t: string, k: nat)
    requires k <= |s| && k <= |t|
    ensures a + s == b + t ==> s[|s| - k..] == t[|t| - k..]
  {
    if a + s == b + t {
      var all := a + s;
      assert s[|s| - k..] == all[|all| - k..];
      assert t[|t| - k..] == (b + t)[|b + t| - k..];
    }
  }

  lemma SameFront(a: string, s: string, b: string)
    ensures a + s == b + s ==> a == b
  {
    if a + s == b + s {
      assert a == (a + s)[..|a|] && b == (b + s)[..|b|];
    }
  }
}
