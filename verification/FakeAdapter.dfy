/** The fake adapter's sessions: the event trace of a scripted session under grants, a turn limit and an abort that may
    come at any moment. A session plays a prefix of the script's items; everything it promises follows from that. */
module FakeAdapter {
  import opened Wrappers

  datatype ToolId = WriteId(path: string) | ExecId(index: nat) | McpId(index: nat)

  datatype Reason = Complete | Error | Limit | Aborted

  datatype Event =
    | Started
    | Said(text: string)
    | Control(token: string)
    | Thought(text: string)
    | Called(id: ToolId)
    | Changed(path: string)
    | Answered(id: ToolId, ok: bool)
    | Usage(input: nat, output: nat)
    | Failed
    | Ended(reason: Reason)

  datatype SessionResult = SessionResult(
    ok: bool,
    finalText: string,
    turns: nat,
    changedFiles: seq<string>,
    controlTokens: seq<string>)

  datatype Script = Script(
    text: seq<string>,
    thinking: seq<string>,
    untrusted: Option<string>,
    skillText: Option<string>,
    writes: seq<(string, string)>,
    execs: seq<string>,
    mcps: seq<string>,
    endsInError: bool)

  /** What a session may do, and when it is aborted: the signal is seen once this many events have been yielded. */
  datatype Context = Context(
    canWrite: bool,                 // granted, and the adapter can edit files
    inside: string -> bool,         // resolveInsideCwd finds a target
    execAllowed: string -> bool,
    mcpGranted: string -> bool,
    hasSkills: bool,
    stripped: string -> string,     // stripControlTokens
    tokens: string -> seq<string>,  // parseControlTokens
    maxTurns: Option<nat>,
    abortAt: Option<nat>)
  {
    predicate Aborting(yielded: nat) {
      abortAt.Some? && yielded >= abortAt.value
    }

    predicate Writes(path: string) {
      canWrite && inside(path)
    }
  }

  // ----- The plan -----

  /** One unit of work between two looks at the abort signal. */
  datatype Item =
    | Turn(text: string)
    | Thinking(text: string)
    | Extra(text: string)           // stripped untrusted content, or skill-visible text
    | Write(path: string, content: string)
    | Exec(index: nat, command: string)
    | Mcp(index: nat, tool: string)

  function Turns(texts: seq<string>): seq<Item> {
    seq(|texts|, i requires 0 <= i < |texts| => Turn(texts[i]))
  }

  function Thoughts(texts: seq<string>): seq<Item> {
    seq(|texts|, i requires 0 <= i < |texts| => Thinking(texts[i]))
  }

  function Untrusted(ctx: Context, script: Script): seq<Item> {
    if script.untrusted.Some? && ctx.stripped(script.untrusted.value) != "" then
      [Extra(ctx.stripped(script.untrusted.value))]
    else []
  }

  function SkillText(ctx: Context, script: Script): seq<Item> {
    if script.skillText.Some? && ctx.hasSkills then [Extra(script.skillText.value)] else []
  }

  function WritesOf(writes: seq<(string, string)>): seq<Item> {
    seq(|writes|, i requires 0 <= i < |writes| => Write(writes[i].0, writes[i].1))
  }

  function ExecsOf(commands: seq<string>): seq<Item> {
    seq(|commands|, i requires 0 <= i < |commands| => Exec(i, commands[i]))
  }

  function McpsOf(tools: seq<string>): seq<Item> {
    seq(|tools|, i requires 0 <= i < |tools| => Mcp(i, tools[i]))
  }

  /** Every item of the script, in phase order. */
  function Plan(ctx: Context, script: Script): seq<Item> {
    Turns(script.text) + (Thoughts(script.thinking) + (Untrusted(ctx, script) + (SkillText(ctx, script) +
    (WritesOf(script.writes) + (ExecsOf(script.execs) + McpsOf(script.mcps))))))
  }

  function Promoted(tokens: seq<string>): seq<Event> {
    seq(|tokens|, i requires 0 <= i < |tokens| => Control(tokens[i]))
  }

  /** The events one item yields. */
  function Yields(ctx: Context, item: Item): seq<Event> {
    match item
    case Turn(text) => [Said(text)] + Promoted(ctx.tokens(text))
    case Extra(text) => [Said(text)] + Promoted(ctx.tokens(text))
    case Thinking(text) => [Thought(text)]
    case Write(path, _) =>
      if ctx.Writes(path) then [Called(WriteId(path)), Changed(path), Answered(WriteId(path), true)]
      else [Called(WriteId(path)), Answered(WriteId(path), false)]
    case Exec(i, command) => [Called(ExecId(i)), Answered(ExecId(i), ctx.execAllowed(command))]
    case Mcp(i, tool) => [Called(McpId(i)), Answered(McpId(i), ctx.mcpGranted(tool))]
  }

  // What the first `k` items yield, how many turns they take, and what they write.

  function Yielded(ctx: Context, plan: seq<Item>, k: nat): seq<Event>
    requires k <= |plan|
  {
    if k == 0 then [] else Yielded(ctx, plan, k - 1) + Yields(ctx, plan[k - 1])
  }

  function TurnCount(plan: seq<Item>, k: nat): nat
    requires k <= |plan|
  {
    if k == 0 then 0 else TurnCount(plan, k - 1) + if plan[k - 1].Turn? then 1 else 0
  }

  function WriteOf(ctx: Context, item: Item): seq<(string, string)> {
    if item.Write? && ctx.Writes(item.path) then [(item.path, item.content)] else []
  }

  function Written(ctx: Context, plan: seq<Item>, k: nat): seq<(string, string)>
    requires k <= |plan|
  {
    if k == 0 then [] else Written(ctx, plan, k - 1) + WriteOf(ctx, plan[k - 1])
  }

  // ----- Playing the plan -----

  /** How playing ends: after how many items, and early for which reason. */
  datatype Played = Played(items: nat, early: Option<Reason>)

  /** Why the session must stop before item `k`, if it must: the abort signal is looked at first, then the turn limit.
      `before` events were yielded before the plan. */
  function Stop(ctx: Context, plan: seq<Item>, before: nat, k: nat): Option<Reason>
    requires k <= |plan|
  {
    if ctx.Aborting(before + |Yielded(ctx, plan, k)|) then Some(Aborted)
    else if k < |plan| && plan[k].Turn? && ctx.maxTurns.Some? && TurnCount(plan, k) >= ctx.maxTurns.value then
      Some(Limit)
    else None
  }

  /** Playing from item `k` on stops at the first item that must not begin. */
  function Play(ctx: Context, plan: seq<Item>, before: nat, k: nat): (p: Played)
    requires k <= |plan|
    ensures k <= p.items <= |plan|
    decreases |plan| - k
  {
    hide *;
    if Stop(ctx, plan, before, k).Some? || k == |plan| then Played(k, Stop(ctx, plan, before, k))
    else Play(ctx, plan, before, k + 1)
  }

  lemma {:induction false} PlayStopsFirst(ctx: Context, plan: seq<Item>, before: nat, k: nat)
    requires k <= |plan|
    ensures var p := Play(ctx, plan, before, k);
      && p.early == Stop(ctx, plan, before, p.items)
      && (p.early.None? ==> p.items == |plan|)
      && (forall i | k <= i < p.items :: Stop(ctx, plan, before, i).None?)
    decreases |plan| - k
  {
    hide Stop;
    if Stop(ctx, plan, before, k).None? && k < |plan| {
      PlayStopsFirst(ctx, plan, before, k + 1);
    }
  }

  /** The events after the plan. */
  function Closing(script: Script, turns: nat, early: Option<Reason>): seq<Event> {
    if early.Some? then [Ended(early.value)]
    else
      var charged := if turns < 1 then 1 else turns;
      [Usage(10 * charged, 5 * charged)] + if script.endsInError then [Failed, Ended(Error)] else [Ended(Complete)]
  }

  /** A resumed session first repeats the text it remembers, if any. */
  function Opening(remembered: string): seq<Event> {
    if remembered == "" then [Started] else [Started, Said(remembered)]
  }

  /** The whole trace of a session whose model is known. */
  function Trace(ctx: Context, script: Script, remembered: string): seq<Event> {
    var plan := Plan(ctx, script);
    var p := Play(ctx, plan, |Opening(remembered)|, 0);
    Opening(remembered) + Yielded(ctx, plan, p.items) + Closing(script, TurnCount(plan, p.items), p.early)
  }

  // ----- What every trace keeps -----

  /** Neither a start nor an end, and every call is answered under its own id before the next call. */
  ghost predicate Conversation(es: seq<Event>) {
    && (forall i | 0 <= i < |es| :: !es[i].Started? && !es[i].Ended?)
    && (forall i | 0 <= i < |es| && es[i].Called? :: AnsweredSoon(es, i))
  }

  ghost predicate AnsweredSoon(es: seq<Event>, i: nat)
    requires i < |es| && es[i].Called?
  {
    || (i + 1 < |es| && es[i + 1].Answered? && es[i + 1].id == es[i].id)
    || (i + 2 < |es| && es[i + 1].Changed? && es[i + 2].Answered? && es[i + 2].id == es[i].id)
  }

  lemma ConversationConcat(a: seq<Event>, b: seq<Event>)
    requires Conversation(a) && Conversation(b)
    ensures Conversation(a + b)
  {
    var es := a + b;
    forall i | 0 <= i < |es| && es[i].Called?
      ensures AnsweredSoon(es, i)
    {
      if i < |a| {
        assert AnsweredSoon(a, i);
      } else {
        assert AnsweredSoon(b, i - |a|);
        assert es[i] == b[i - |a|];
        assert i + 1 < |es| ==> es[i + 1] == b[i + 1 - |a|];
        assert i + 2 < |es| ==> es[i + 2] == b[i + 2 - |a|];
      }
    }
  }

  lemma YieldsConversation(ctx: Context, item: Item)
    ensures Conversation(Yields(ctx, item))
  {
    var es := Yields(ctx, item);
    if item.Write? || item.Exec? || item.Mcp? {
      assert AnsweredSoon(es, 0);
    }
  }

  lemma {:induction false} YieldedConversation(ctx: Context, plan: seq<Item>, k: nat)
    requires k <= |plan|
    ensures Conversation(Yielded(ctx, plan, k))
  {
    hide Yields;
    if k > 0 {
      hide Conversation;
      YieldedConversation(ctx, plan, k - 1);
      YieldsConversation(ctx, plan[k - 1]);
      ConversationConcat(Yielded(ctx, plan, k - 1), Yields(ctx, plan[k - 1]));
    }
  }

  lemma EndsConversation(script: Script, remembered: string, turns: nat, early: Option<Reason>)
    ensures var opening := Opening(remembered);
      |opening| > 0 && opening[0] == Started && Conversation(opening[1..])
    ensures var closing := Closing(script, turns, early);
      |closing| > 0 && closing[|closing| - 1].Ended? && Conversation(closing[..|closing| - 1])
  {
  }

  /** A session, fresh or resumed, starts with `Started` and never again, ends with `Ended` and only then, and in
      between answers every tool call under its own id before the next one. */
  lemma TraceWellFormed(ctx: Context, script: Script, remembered: string)
    ensures var t := Trace(ctx, script, remembered);
      && |t| >= 2 && t[0] == Started && t[|t| - 1].Ended?
      && Conversation(t[1..|t| - 1])
  {
    hide Plan, Play, Yielded, TurnCount, Conversation, Opening, Closing;
    var plan, opening := Plan(ctx, script), Opening(remembered);
    var p := Play(ctx, plan, |opening|, 0);
    var body := Yielded(ctx, plan, p.items);
    var closing := Closing(script, TurnCount(plan, p.items), p.early);
    EndsConversation(script, remembered, TurnCount(plan, p.items), p.early);
    var lead, before := opening[1..], closing[..|closing| - 1];
    YieldedConversation(ctx, plan, p.items);
    ConversationConcat(lead, body);
    ConversationConcat(lead + body, before);
    var t := Trace(ctx, script, remembered);
    assert t == opening + body + closing;
    assert t[1..|t| - 1] == lead + body + before;
  }

  lemma {:induction false} TurnsBounded(ctx: Context, plan: seq<Item>, before: nat, k: nat)
    requires k <= |plan| && ctx.maxTurns.Some? && forall i | 0 <= i < k :: Stop(ctx, plan, before, i).None?
    ensures TurnCount(plan, k) <= ctx.maxTurns.value
  {
    hide Yielded;
    if k > 0 {
      TurnsBounded(ctx, plan, before, k - 1);
      assert Stop(ctx, plan, before, k - 1).None?;
    }
  }

  /** No session takes more turns than its limit; one that ends by the limit has taken exactly that many and has another
      turn left in its script. */
  lemma TurnLimitKept(ctx: Context, script: Script, before: nat)
    requires ctx.maxTurns.Some?
    ensures var plan := Plan(ctx, script);
      var p := Play(ctx, plan, before, 0);
      && TurnCount(plan, p.items) <= ctx.maxTurns.value
      && (p.early == Some(Limit) ==>
            TurnCount(plan, p.items) == ctx.maxTurns.value && p.items < |plan| && plan[p.items].Turn?)
  {
    hide Plan, Yielded, TurnCount;
    var plan := Plan(ctx, script);
    PlayStopsFirst(ctx, plan, before, 0);
    TurnsBounded(ctx, plan, before, Play(ctx, plan, before, 0).items);
  }

  /** After an abort at most the item already begun is completed: every item played began before the signal, the session
      ends as aborted exactly when the signal is there at its last look, and no session with the signal there by the
      end of its plan runs to a normal end. */
  lemma AbortCompletesOneItem(ctx: Context, script: Script, remembered: string)
    ensures var plan := Plan(ctx, script);
      var before := |Opening(remembered)|;
      var p := Play(ctx, plan, before, 0);
      && (forall i | 0 <= i < p.items :: !ctx.Aborting(before + |Yielded(ctx, plan, i)|))
      && (p.early == Some(Aborted) <==> ctx.Aborting(before + |Yielded(ctx, plan, p.items)|))
      && (ctx.Aborting(before + |Yielded(ctx, plan, |plan|)|) ==> p.early.Some?)
      && (p.early == Some(Aborted) ==>
            Trace(ctx, script, remembered) ==
            Opening(remembered) + Yielded(ctx, plan, p.items) + [Ended(Aborted)])
  {
    hide Plan, Yielded, TurnCount;
    var plan, before := Plan(ctx, script), |Opening(remembered)|;
    var p := Play(ctx, plan, before, 0);
    PlayStopsFirst(ctx, plan, before, 0);
    forall i | 0 <= i < p.items
      ensures !ctx.Aborting(before + |Yielded(ctx, plan, i)|)
    {
      assert Stop(ctx, plan, before, i).None?;
    }
  }

  // ----- What a trace reports -----

  function Gather<T>(es: seq<Event>, pick: Event -> seq<T>): seq<T> {
    if es == [] then [] else Gather(es[..|es| - 1], pick) + pick(es[|es| - 1])
  }

  const ChangedPath := (e: Event) => if e.Changed? then [e.path] else []
  const SaidText := (e: Event) => if e.Said? then [e.text] else []
  const ControlToken := (e: Event) => if e.Control? then [e.token] else []

  lemma {:induction false} GatherConcat<T>(a: seq<Event>, b: seq<Event>, pick: Event -> seq<T>)
    ensures Gather(a + b, pick) == Gather(a, pick) + Gather(b, pick)
  {
    if b == [] {
      assert a + b == a;
    } else {
      assert (a + b)[..|a + b| - 1] == a + b[..|b| - 1];
      GatherConcat(a, b[..|b| - 1], pick);
    }
  }

  lemma {:induction false} GatherNothing<T>(es: seq<Event>, pick: Event -> seq<T>)
    requires forall i | 0 <= i < |es| :: pick(es[i]) == []
    ensures Gather(es, pick) == []
  {
    if es != [] {
      GatherNothing(es[..|es| - 1], pick);
    }
  }

  function Concat(parts: seq<string>): string {
    if parts == [] then "" else Concat(parts[..|parts| - 1]) + parts[|parts| - 1]
  }

  lemma {:induction false} ConcatAppend(a: seq<string>, b: seq<string>)
    ensures Concat(a + b) == Concat(a) + Concat(b)
  {
    if b == [] {
      assert a + b == a;
    } else {
      assert (a + b)[..|a + b| - 1] == a + b[..|b| - 1];
      ConcatAppend(a, b[..|b| - 1]);
    }
  }

  function Paths(writes: seq<(string, string)>): seq<string> {
    seq(|writes|, i requires 0 <= i < |writes| => writes[i].0)
  }

  lemma YieldsChanges(ctx: Context, item: Item)
    ensures Gather(Yields(ctx, item), ChangedPath) == Paths(WriteOf(ctx, item))
  {
    var es := Yields(ctx, item);
    if item.Write? && ctx.Writes(item.path) {
      assert es == [es[0]] + [es[1]] + [es[2]];
      GatherConcat([es[0]] + [es[1]], [es[2]], ChangedPath);
      GatherConcat([es[0]], [es[1]], ChangedPath);
    } else {
      GatherNothing(es, ChangedPath);
    }
  }

  lemma {:induction false} YieldedChanges(ctx: Context, plan: seq<Item>, k: nat)
    requires k <= |plan|
    ensures Gather(Yielded(ctx, plan, k), ChangedPath) == Paths(Written(ctx, plan, k))
  {
    hide Yields, WriteOf;
    if k > 0 {
      hide Gather, Paths;
      YieldedChanges(ctx, plan, k - 1);
      YieldsChanges(ctx, plan[k - 1]);
      GatherConcat(Yielded(ctx, plan, k - 1), Yields(ctx, plan[k - 1]), ChangedPath);
      PathsConcat(Written(ctx, plan, k - 1), WriteOf(ctx, plan[k - 1]));
    }
  }

  lemma PathsConcat(a: seq<(string, string)>, b: seq<(string, string)>)
    ensures Paths(a + b) == Paths(a) + Paths(b)
  {
  }

  lemma EndsReportNothing(script: Script, remembered: string, turns: nat, early: Option<Reason>)
    ensures Gather(Opening(remembered), ChangedPath) == [] && Gather(Closing(script, turns, early), ChangedPath) == []
  {
    hide Gather;
    GatherNothing(Opening(remembered), ChangedPath);
    GatherNothing(Closing(script, turns, early), ChangedPath);
  }

  /** The trace reports as changed exactly the granted writes inside the working directory that were played. */
  lemma TraceReportsWrites(ctx: Context, script: Script, remembered: string)
    ensures var plan := Plan(ctx, script);
      var p := Play(ctx, plan, |Opening(remembered)|, 0);
      Gather(Trace(ctx, script, remembered), ChangedPath) == Paths(Written(ctx, plan, p.items))
  {
    hide Plan, Play, Yielded, TurnCount, Written, Gather, Opening, Closing, Paths;
    var plan, opening := Plan(ctx, script), Opening(remembered);
    var p := Play(ctx, plan, |opening|, 0);
    var body := Yielded(ctx, plan, p.items);
    var closing := Closing(script, TurnCount(plan, p.items), p.early);
    EndsReportNothing(script, remembered, TurnCount(plan, p.items), p.early);
    YieldedChanges(ctx, plan, p.items);
    GatherConcat(opening, body, ChangedPath);
    GatherConcat(opening + body, closing, ChangedPath);
  }

  lemma GatherOne<T>(e: Event, pick: Event -> seq<T>)
    ensures Gather([e], pick) == pick(e)
  {
    assert Gather([e][..0], pick) == [];
  }

  lemma OpeningReports(remembered: string)
    ensures var opening := Opening(remembered);
      && Concat(Gather(opening, SaidText)) == remembered
      && Gather(opening, ControlToken) == [] && Gather(opening, ChangedPath) == []
  {
    hide Gather;
    var opening := Opening(remembered);
    GatherNothing(opening, ControlToken);
    GatherNothing(opening, ChangedPath);
    GatherOne(Started, SaidText);
    if remembered != "" {
      assert opening == [Started] + [Said(remembered)];
      GatherConcat([Started], [Said(remembered)], SaidText);
      GatherOne(Said(remembered), SaidText);
      assert Concat([remembered]) == "" + remembered;
    }
  }

  // ----- What a session answers, says and ends with -----

  /** Every answer is for a call of the script, and says ok exactly when that call was granted: a write, when writing is
      granted and the target lies inside the working directory; a command or a tool, when it is. */
  ghost predicate AnsweredAsGranted(ctx: Context, script: Script, e: Event) {
    match e
    case Answered(WriteId(path), ok) =>
      && (exists k :: 0 <= k < |script.writes| && script.writes[k].0 == path)
      && (ok <==> ctx.canWrite && ctx.inside(path))
    case Answered(ExecId(k), ok) => k < |script.execs| && (ok <==> ctx.execAllowed(script.execs[k]))
    case Answered(McpId(k), ok) => k < |script.mcps| && (ok <==> ctx.mcpGranted(script.mcps[k]))
    case _ => true
  }

  /** An item of the script. */
  ghost predicate FromScript(script: Script, item: Item) {
    match item
    case Write(path, content) => exists k :: 0 <= k < |script.writes| && script.writes[k] == (path, content)
    case Exec(k, command) => k < |script.execs| && command == script.execs[k]
    case Mcp(k, tool) => k < |script.mcps| && tool == script.mcps[k]
    case _ => true
  }

  lemma PlanFromScript(ctx: Context, script: Script)
    ensures forall item | item in Plan(ctx, script) :: FromScript(script, item)
  {
    ToolsFromScript(script);
    assert forall item | item in Turns(script.text) :: FromScript(script, item);
    assert forall item | item in Thoughts(script.thinking) :: FromScript(script, item);
    assert forall item | item in Untrusted(ctx, script) :: FromScript(script, item);
    assert forall item | item in SkillText(ctx, script) :: FromScript(script, item);
    hide FromScript, Turns, Thoughts, Untrusted, SkillText, WritesOf, ExecsOf, McpsOf;
  }

  lemma ToolsFromScript(script: Script)
    ensures forall item | item in WritesOf(script.writes) :: FromScript(script, item)
    ensures forall item | item in ExecsOf(script.execs) :: FromScript(script, item)
    ensures forall item | item in McpsOf(script.mcps) :: FromScript(script, item)
  {
    assert forall k | 0 <= k < |script.writes| :: script.writes[k] == (script.writes[k].0, script.writes[k].1);
  }

  lemma {:induction false} YieldedAsGranted(ctx: Context, script: Script, plan: seq<Item>, k: nat)
    requires k <= |plan| && forall item | item in plan :: FromScript(script, item)
    ensures forall e | e in Yielded(ctx, plan, k) :: AnsweredAsGranted(ctx, script, e)
  {
    if k > 0 {
      YieldedAsGranted(ctx, script, plan, k - 1);
      assert plan[k - 1] in plan;
      ItemAsGranted(ctx, script, plan[k - 1]);
    }
  }

  lemma ItemAsGranted(ctx: Context, script: Script, item: Item)
    requires FromScript(script, item)
    ensures forall e | e in Yields(ctx, item) :: AnsweredAsGranted(ctx, script, e)
  {
  }

  /** Throughout a session, every answer is as granted. */
  lemma TraceAsGranted(ctx: Context, script: Script, remembered: string)
    ensures forall e | e in Trace(ctx, script, remembered) :: AnsweredAsGranted(ctx, script, e)
  {
    hide Plan, Play, Yielded, TurnCount;
    var plan := Plan(ctx, script);
    var p := Play(ctx, plan, |Opening(remembered)|, 0);
    PlanFromScript(ctx, script);
    YieldedAsGranted(ctx, script, plan, p.items);
  }

  /** How a session ends: by the abort or the limit if one of them stopped it, otherwise, after its usage, as the script
      says, with at least one turn charged. */
  lemma EndExactly(ctx: Context, script: Script, remembered: string)
    ensures var plan, t := Plan(ctx, script), Trace(ctx, script, remembered);
      var p := Play(ctx, plan, |Opening(remembered)|, 0);
      var turns := TurnCount(plan, p.items);
      && |t| >= 2
      && (p.early == Some(Aborted) <==> t[|t| - 1] == Ended(Aborted))
      && (p.early == Some(Limit) <==> t[|t| - 1] == Ended(Limit))
      && (p.early.None? && script.endsInError ==>
            |t| >= 3 && t[|t| - 2] == Failed && t[|t| - 1] == Ended(Error) &&
            t[|t| - 3] == if turns == 0 then Usage(10, 5) else Usage(10 * turns, 5 * turns))
      && (p.early.None? && !script.endsInError ==>
            t[|t| - 1] == Ended(Complete) &&
            t[|t| - 2] == if turns == 0 then Usage(10, 5) else Usage(10 * turns, 5 * turns))
  {
    hide Plan, Yielded, TurnCount, Play;
    PlayStopsFirst(ctx, Plan(ctx, script), |Opening(remembered)|, 0);
  }

  /** What one item says, and the control tokens of what is said. */
  function Spoken(item: Item): seq<string> {
    if item.Turn? || item.Extra? then [item.text] else []
  }

  function TokensIn(ctx: Context, texts: seq<string>): seq<string> {
    if texts == [] then [] else TokensIn(ctx, texts[..|texts| - 1]) + ctx.tokens(texts[|texts| - 1])
  }

  lemma ItemSays(ctx: Context, item: Item)
    ensures Gather(Yields(ctx, item), SaidText) == Spoken(item)
    ensures Gather(Yields(ctx, item), ControlToken) == TokensIn(ctx, Spoken(item))
  {
    hide Gather;
    if item.Turn? || item.Extra? {
      hide Promoted;
      SpokenSays(item.text, ctx.tokens(item.text));
      assert [item.text][..0] == [];
    } else {
      GatherNothing(Yields(ctx, item), SaidText);
      GatherNothing(Yields(ctx, item), ControlToken);
    }
  }

  lemma SpokenSays(text: string, tokens: seq<string>)
    ensures Gather([Said(text)] + Promoted(tokens), SaidText) == [text]
    ensures Gather([Said(text)] + Promoted(tokens), ControlToken) == tokens
  {
    hide Gather;
    GatherConcat([Said(text)], Promoted(tokens), SaidText);
    GatherConcat([Said(text)], Promoted(tokens), ControlToken);
    GatherOne(Said(text), SaidText);
    GatherOne(Said(text), ControlToken);
    GatherNothing(Promoted(tokens), SaidText);
    PromotedTokens(tokens);
  }

  lemma {:induction false} PromotedTokens(tokens: seq<string>)
    ensures Gather(Promoted(tokens), ControlToken) == tokens
  {
    if tokens != [] {
      var front := tokens[..|tokens| - 1];
      assert Promoted(tokens)[..|tokens| - 1] == Promoted(front);
      PromotedTokens(front);
    }
  }

  /** What the items say. */
  function Texts(items: seq<Item>): seq<string> {
    if items == [] then [] else Texts(items[..|items| - 1]) + Spoken(items[|items| - 1])
  }

  lemma {:induction false} TextsConcat(a: seq<Item>, b: seq<Item>)
    ensures Texts(a + b) == Texts(a) + Texts(b)
  {
    if b == [] {
      assert a + b == a;
    } else {
      assert (a + b)[..|a + b| - 1] == a + b[..|b| - 1];
      TextsConcat(a, b[..|b| - 1]);
    }
  }

  lemma {:induction false} TokensConcat(ctx: Context, a: seq<string>, b: seq<string>)
    ensures TokensIn(ctx, a + b) == TokensIn(ctx, a) + TokensIn(ctx, b)
  {
    if b == [] {
      assert a + b == a;
    } else {
      assert (a + b)[..|a + b| - 1] == a + b[..|b| - 1];
      TokensConcat(ctx, a, b[..|b| - 1]);
    }
  }

  lemma {:induction false} YieldedSays(ctx: Context, plan: seq<Item>, k: nat)
    requires k <= |plan|
    ensures Gather(Yielded(ctx, plan, k), SaidText) == Texts(plan[..k])
    ensures Gather(Yielded(ctx, plan, k), ControlToken) == TokensIn(ctx, Texts(plan[..k]))
  {
    if k > 0 {
      hide Gather, Yields, TokensIn, Spoken;
      YieldedSays(ctx, plan, k - 1);
      ItemSays(ctx, plan[k - 1]);
      GatherConcat(Yielded(ctx, plan, k - 1), Yields(ctx, plan[k - 1]), SaidText);
      GatherConcat(Yielded(ctx, plan, k - 1), Yields(ctx, plan[k - 1]), ControlToken);
      assert plan[..k][..k - 1] == plan[..k - 1];
      TokensConcat(ctx, Texts(plan[..k - 1]), Spoken(plan[k - 1]));
    }
  }

  /** What the script has a session say: its turns, then its untrusted content with control tokens taken out if anything
      is left of it, then its skill text if a skill is provisioned. */
  function Speech(ctx: Context, script: Script): seq<string> {
    script.text
    + (if script.untrusted.Some? && ctx.stripped(script.untrusted.value) != "" then
         [ctx.stripped(script.untrusted.value)]
       else [])
    + (if script.skillText.Some? && ctx.hasSkills then [script.skillText.value] else [])
  }

  lemma {:induction false} TextsOfTurns(texts: seq<string>)
    ensures Texts(Turns(texts)) == texts
  {
    if texts != [] {
      var front := texts[..|texts| - 1];
      assert Turns(texts)[..|texts| - 1] == Turns(front);
      TextsOfTurns(front);
    }
  }

  lemma {:induction false} Wordless(items: seq<Item>)
    requires forall item | item in items :: !item.Turn? && !item.Extra?
    ensures Texts(items) == []
  {
    if items != [] {
      Wordless(items[..|items| - 1]);
    }
  }

  lemma OneText(text: string)
    ensures Texts([Extra(text)]) == [text]
  {
    assert [Extra(text)][..0] == [];
  }

  lemma PartsSay(ctx: Context, script: Script)
    ensures Texts(Thoughts(script.thinking)) == []
    ensures Texts(WritesOf(script.writes)) == Texts(ExecsOf(script.execs)) == Texts(McpsOf(script.mcps)) == []
    ensures script.text + Texts(Untrusted(ctx, script)) + Texts(SkillText(ctx, script)) == Speech(ctx, script)
  {
    hide Texts;
    Wordless(Thoughts(script.thinking));
    Wordless(WritesOf(script.writes));
    Wordless(ExecsOf(script.execs));
    Wordless(McpsOf(script.mcps));
    Wordless([]);
    if script.untrusted.Some? {
      OneText(ctx.stripped(script.untrusted.value));
    }
    if script.skillText.Some? {
      OneText(script.skillText.value);
    }
  }

  lemma PlanSays(ctx: Context, script: Script)
    ensures Texts(Plan(ctx, script)) == Speech(ctx, script)
  {
    PartsSay(ctx, script);
    TextsOfTurns(script.text);
    hide Texts, Turns, Thoughts, Untrusted, SkillText, WritesOf, ExecsOf, McpsOf, Speech;
    var tools := ExecsOf(script.execs) + McpsOf(script.mcps);
    TextsConcat(ExecsOf(script.execs), McpsOf(script.mcps));
    TextsConcat(WritesOf(script.writes), tools);
    var afterSkill := WritesOf(script.writes) + tools;
    TextsConcat(SkillText(ctx, script), afterSkill);
    TextsConcat(Untrusted(ctx, script), SkillText(ctx, script) + afterSkill);
    var afterThoughts := Untrusted(ctx, script) + (SkillText(ctx, script) + afterSkill);
    TextsConcat(Thoughts(script.thinking), afterThoughts);
    TextsConcat(Turns(script.text), Thoughts(script.thinking) + afterThoughts);
    AddNothing(script.text, Texts(Untrusted(ctx, script)), Texts(SkillText(ctx, script)));
  }

  lemma AddNothing(a: seq<string>, b: seq<string>, d: seq<string>)
    ensures a + ([] + (b + (d + ([] + ([] + []))))) == a + b + d
  {
  }

  /** A session nothing stopped says the remembered text and then all the script has it say, and promotes exactly the
      control tokens of what the script says, in order; the remembered text is not scanned again. */
  lemma FullSessionSays(ctx: Context, script: Script, remembered: string)
    requires Play(ctx, Plan(ctx, script), |Opening(remembered)|, 0).early.None?
    ensures var t := Trace(ctx, script, remembered);
      && Gather(t, SaidText) == (if remembered == "" then [] else [remembered]) + Speech(ctx, script)
      && Gather(t, ControlToken) == TokensIn(ctx, Speech(ctx, script))
  {
    hide Plan, Play, Stop, Yielded, TurnCount, Gather, Texts, Speech, TokensIn, Opening, Closing;
    var plan, opening := Plan(ctx, script), Opening(remembered);
    var p := Play(ctx, plan, |opening|, 0);
    PlayStopsFirst(ctx, plan, |opening|, 0);
    PlanSays(ctx, script);
    YieldedSays(ctx, plan, |plan|);
    assert plan[..|plan|] == plan;
    var body := Yielded(ctx, plan, |plan|);
    var closing := Closing(script, TurnCount(plan, |plan|), p.early);
    OpeningSays(remembered);
    ClosingSaysNothing(script, TurnCount(plan, |plan|), p.early);
    GatherConcat(opening, body, SaidText);
    GatherConcat(opening + body, closing, SaidText);
    GatherConcat(opening, body, ControlToken);
    GatherConcat(opening + body, closing, ControlToken);
  }

  lemma ClosingSaysNothing(script: Script, turns: nat, early: Option<Reason>)
    ensures var closing := Closing(script, turns, early);
      Gather(closing, SaidText) == [] && Gather(closing, ControlToken) == []
  {
    hide Gather;
    GatherNothing(Closing(script, turns, early), SaidText);
    GatherNothing(Closing(script, turns, early), ControlToken);
  }

  lemma OpeningSays(remembered: string)
    ensures Gather(Opening(remembered), SaidText) == if remembered == "" then [] else [remembered]
    ensures Gather(Opening(remembered), ControlToken) == []
  {
    hide Gather;
    GatherNothing(Opening(remembered), ControlToken);
    GatherOne(Started, SaidText);
    if remembered != "" {
      assert Opening(remembered) == [Started] + [Said(remembered)];
      GatherConcat([Started], [Said(remembered)], SaidText);
      GatherOne(Said(remembered), SaidText);
    }
  }

  // ----- The session as the source runs it -----

  class Session {
    const ctx: Context
    var trace: seq<Event>
    var turnsRun: nat
    var finalTextParts: seq<string>
    var controlTokens: seq<string>
    var changedFiles: seq<string>
    var disk: seq<(string, string)>   // the files written, in order

    constructor (ctx: Context)
      ensures this.ctx == ctx && Fresh()
    {
      this.ctx := ctx;
      trace, turnsRun, finalTextParts, controlTokens, changedFiles, disk := [], 0, [], [], [], [];
    }

    predicate Fresh()
      reads this
    {
      trace == [] && turnsRun == 0 && finalTextParts == [] && controlTokens == [] && changedFiles == [] && disk == []
    }

    /** The lists the result is made from are what the trace, after its opening, reports. */
    ghost predicate Reported(opening: seq<Event>)
      reads this
    {
      && opening <= trace
      && finalTextParts == Gather(trace[|opening|..], SaidText)
      && controlTokens == Gather(trace[|opening|..], ControlToken)
      && changedFiles == Gather(trace[|opening|..], ChangedPath)
    }

    /** Everything yielded and done so far is what the first `k` items of the plan give. */
    ghost predicate Standing(opening: seq<Event>, plan: seq<Item>, k: nat)
      reads this
    {
      && k <= |plan|
      && trace == opening + Yielded(ctx, plan, k)
      && turnsRun == TurnCount(plan, k)
      && disk == Written(ctx, plan, k)
      && Reported(opening)
    }

    method Yield(e: Event, ghost opening: seq<Event>)
      requires opening <= trace
      modifies this`trace
      ensures trace == old(trace) + [e] && opening <= trace
      ensures Gather(trace[|opening|..], SaidText) == old(Gather(trace[|opening|..], SaidText)) + SaidText(e)
      ensures Gather(trace[|opening|..], ControlToken) ==
              old(Gather(trace[|opening|..], ControlToken)) + ControlToken(e)
      ensures Gather(trace[|opening|..], ChangedPath) == old(Gather(trace[|opening|..], ChangedPath)) + ChangedPath(e)
    {
      ghost var since := trace[|opening|..];
      trace := trace + [e];
      assert trace[|opening|..] == since + [e];
      GatherConcat(since, [e], SaidText);
      GatherConcat(since, [e], ControlToken);
      GatherConcat(since, [e], ChangedPath);
    }

    /** A text, then each control token in it; both are also kept for the result. */
    method EmitText(text: string, ghost opening: seq<Event>)
      requires Reported(opening)
      modifies this`trace, this`finalTextParts, this`controlTokens
      ensures trace == old(trace) + ([Said(text)] + Promoted(ctx.tokens(text)))
      ensures Reported(opening)
    {
      hide Gather;
      Yield(Said(text), opening);
      finalTextParts := finalTextParts + [text];
      var tokens := ctx.tokens(text);
      for i := 0 to |tokens|
        invariant trace == old(trace) + ([Said(text)] + Promoted(tokens[..i]))
        invariant Reported(opening)
      {
        assert Promoted(tokens[..i + 1]) == Promoted(tokens[..i]) + [Control(tokens[i])];
        controlTokens := controlTokens + [tokens[i]];
        Yield(Control(tokens[i]), opening);
      }
      assert tokens[..|tokens|] == tokens;
    }

    /** One item: its events, and for a granted write inside the working directory the write itself. */
    method PlayItem(item: Item, ghost opening: seq<Event>)
      requires Reported(opening)
      modifies this
      ensures trace == old(trace) + Yields(ctx, item)
      ensures turnsRun == old(turnsRun) + if item.Turn? then 1 else 0
      ensures disk == old(disk) + WriteOf(ctx, item)
      ensures Reported(opening)
    {
      hide Gather;
      match item
      case Turn(text) =>
        EmitText(text, opening);
        turnsRun := turnsRun + 1;
      case Extra(text) =>
        EmitText(text, opening);
      case Thinking(text) =>
        Yield(Thought(text), opening);
      case Write(path, content) =>
        PlayWrite(path, content, opening);
      case Exec(i, command) =>
        Yield(Called(ExecId(i)), opening);
        Yield(Answered(ExecId(i), ctx.execAllowed(command)), opening);
      case Mcp(i, tool) =>
        Yield(Called(McpId(i)), opening);
        Yield(Answered(McpId(i), ctx.mcpGranted(tool)), opening);
    }

    method PlayWrite(path: string, content: string, ghost opening: seq<Event>)
      requires Reported(opening)
      modifies this`trace, this`disk, this`changedFiles
      ensures trace == old(trace) + Yields(ctx, Write(path, content))
      ensures disk == old(disk) + WriteOf(ctx, Write(path, content))
      ensures Reported(opening)
    {
      hide Gather;
      Yield(Called(WriteId(path)), opening);
      if !ctx.canWrite {
        Yield(Answered(WriteId(path), false), opening);
        return;
      }
      if !ctx.inside(path) {
        Yield(Answered(WriteId(path), false), opening);
        return;
      }
      disk := disk + [(path, content)];
      changedFiles := changedFiles + [path];
      Yield(Changed(path), opening);
      Yield(Answered(WriteId(path), true), opening);
    }

    /** The state after an early end before item `k`. */
    ghost predicate Stopped(opening: seq<Event>, plan: seq<Item>, k: nat, reason: Reason)
      reads this
    {
      && k <= |plan|
      && trace == opening + Yielded(ctx, plan, k) + [Ended(reason)]
      && turnsRun == TurnCount(plan, k)
      && disk == Written(ctx, plan, k)
      && Reported(opening)
    }

    method End(reason: Reason, ghost opening: seq<Event>, ghost plan: seq<Item>, ghost k: nat)
      requires Standing(opening, plan, k)
      modifies this`trace
      ensures Stopped(opening, plan, k, reason)
    {
      hide Gather, Yielded, TurnCount, Written;
      Yield(Ended(reason), opening);
    }

    /** One phase: the abort signal is looked at before it and before each of its items, the turn limit before each
        turn. */
    method RunPhase(items: seq<Item>, ghost rest: seq<Item>, ghost opening: seq<Event>, ghost plan: seq<Item>,
                    ghost k: nat)
      returns (early: Option<Reason>)
      requires Standing(opening, plan, k) && plan[k..] == items + rest
      modifies this
      ensures early.None? ==> Standing(opening, plan, k + |items|) && plan[k + |items|..] == rest
      ensures early.None? ==> Play(ctx, plan, |opening|, k) == Play(ctx, plan, |opening|, k + |items|)
      ensures early.Some? ==> Play(ctx, plan, |opening|, k).early == early
      ensures early.Some? ==> early.value == Aborted || early.value == Limit
      ensures early.Some? ==> Stopped(opening, plan, Play(ctx, plan, |opening|, k).items, early.value)
    {
      hide Yielded, TurnCount, Written, Yields, Reported, Gather, Play;
      early := None;
      assert |plan| == k + |items| + |rest|;
      assert forall i | 0 <= i < |items| :: items[i] == plan[k..][i] == plan[k + i];
      if ctx.Aborting(|trace|) {
        PlayStopping(ctx, plan, |opening|, k);
        End(Aborted, opening, plan, k);
        return Some(Aborted);
      }
      for n := 0 to |items|
        invariant Standing(opening, plan, k + n)
        invariant Play(ctx, plan, |opening|, k) == Play(ctx, plan, |opening|, k + n)
      {
        if ctx.Aborting(|trace|) {
          PlayStopping(ctx, plan, |opening|, k + n);
          End(Aborted, opening, plan, k + n);
          return Some(Aborted);
        }
        if items[n].Turn? && ctx.maxTurns.Some? && turnsRun >= ctx.maxTurns.value {
          PlayStopping(ctx, plan, |opening|, k + n);
          End(Limit, opening, plan, k + n);
          return Some(Limit);
        }
        PlayStopping(ctx, plan, |opening|, k + n);
        StandingSnoc(plan, k + n);
        PlayItem(items[n], opening);
      }
      assert plan[k + |items|..] == plan[k..][|items|..] == rest;
    }

    lemma StandingSnoc(plan: seq<Item>, k: nat)
      requires k < |plan|
      ensures Yielded(ctx, plan, k + 1) == Yielded(ctx, plan, k) + Yields(ctx, plan[k])
      ensures TurnCount(plan, k + 1) == TurnCount(plan, k) + if plan[k].Turn? then 1 else 0
      ensures Written(ctx, plan, k + 1) == Written(ctx, plan, k) + WriteOf(ctx, plan[k])
    {
    }

    lemma Begin(opening: seq<Event>, plan: seq<Item>)
      requires trace == opening && turnsRun == 0 && disk == [] && Reported(opening)
      ensures Standing(opening, plan, 0)
    {
    }

    /** Every phase in turn, and a last look at the abort signal. */
    method RunScriptPhases(script: Script, ghost opening: seq<Event>) returns (early: Option<Reason>)
      requires trace == opening && turnsRun == 0 && disk == [] && Reported(opening)
      modifies this
      ensures var plan := Plan(ctx, script);
        var p := Play(ctx, plan, |opening|, 0);
        && early == p.early
        && (early.Some? ==> early.value == Aborted || early.value == Limit)
        && if early.Some? then Stopped(opening, plan, p.items, early.value) else Standing(opening, plan, p.items)
    {
      hide Standing, Stopped, Reported, Yielded, TurnCount, Written, Gather, Play, Stop;
      hide Turns, Thoughts, Untrusted, SkillText, WritesOf, ExecsOf, McpsOf;
      ghost var mcps := McpsOf(script.mcps);
      ghost var execs := ExecsOf(script.execs) + mcps;
      ghost var writes := WritesOf(script.writes) + execs;
      ghost var skills := SkillText(ctx, script) + writes;
      ghost var untrusted := Untrusted(ctx, script) + skills;
      ghost var thoughts := Thoughts(script.thinking) + untrusted;
      ghost var plan := Turns(script.text) + thoughts;
      assert plan == Plan(ctx, script) && plan[0..] == plan;
      Begin(opening, plan);
      ghost var k := 0;
      early := RunPhase(Turns(script.text), thoughts, opening, plan, k);
      if early.Some? { return; }
      k := k + |Turns(script.text)|;
      early := RunPhase(Thoughts(script.thinking), untrusted, opening, plan, k);
      if early.Some? { return; }
      k := k + |Thoughts(script.thinking)|;
      early := RunPhase(Untrusted(ctx, script), skills, opening, plan, k);
      if early.Some? { return; }
      k := k + |Untrusted(ctx, script)|;
      early := RunPhase(SkillText(ctx, script), writes, opening, plan, k);
      if early.Some? { return; }
      k := k + |SkillText(ctx, script)|;
      early := RunPhase(WritesOf(script.writes), execs, opening, plan, k);
      if early.Some? { return; }
      k := k + |WritesOf(script.writes)|;
      early := RunPhase(ExecsOf(script.execs), mcps, opening, plan, k);
      if early.Some? { return; }
      k := k + |ExecsOf(script.execs)|;
      early := RunPhase(McpsOf(script.mcps), [], opening, plan, k);
      if early.Some? { return; }
      k := k + |McpsOf(script.mcps)|;
      early := LastLook(opening, plan);
    }

    method LastLook(ghost opening: seq<Event>, ghost plan: seq<Item>) returns (early: Option<Reason>)
      requires Standing(opening, plan, |plan|)
      modifies this`trace
      ensures early == Play(ctx, plan, |opening|, |plan|).early && (early == None || early == Some(Aborted))
      ensures Play(ctx, plan, |opening|, |plan|).items == |plan|
      ensures if early.Some? then Stopped(opening, plan, |plan|, early.value) else Standing(opening, plan, |plan|)
    {
      hide Yielded, TurnCount, Written, Reported;
      if ctx.Aborting(|trace|) {
        End(Aborted, opening, plan, |plan|);
        return Some(Aborted);
      }
      return None;
    }

    /** The result reports exactly what the trace shows: its texts, control tokens, changed files and ending. */
    ghost predicate Agrees(result: SessionResult)
      reads this
    {
      && result.finalText == Concat(Gather(trace, SaidText))
      && result.controlTokens == Gather(trace, ControlToken)
      && result.changedFiles == Gather(trace, ChangedPath)
      && |trace| > 0
      && (result.ok <==> trace[|trace| - 1] == Ended(Complete) || trace[|trace| - 1] == Ended(Limit))
    }

    lemma Agreement(remembered: string, ok: bool)
      requires Reported(Opening(remembered)) && |trace| > 0
      requires ok <==> trace[|trace| - 1] == Ended(Complete) || trace[|trace| - 1] == Ended(Limit)
      ensures Agrees(SessionResult(ok, remembered + Concat(finalTextParts), turnsRun, changedFiles, controlTokens))
    {
      hide Gather, Concat, Opening;
      var opening := Opening(remembered);
      var since := trace[|opening|..];
      assert trace == opening + since;
      GatherConcat(opening, since, SaidText);
      GatherConcat(opening, since, ControlToken);
      GatherConcat(opening, since, ChangedPath);
      OpeningReports(remembered);
      ConcatAppend(Gather(opening, SaidText), finalTextParts);
    }

    /** What follows the phases: nothing after an early end, else the usage and the scripted ending. */
    method Finish(script: Script, early: Option<Reason>, leading: string, ghost k: nat) returns (result: SessionResult)
      requires var plan, opening := Plan(ctx, script), Opening(leading);
        if early.Some? then Stopped(opening, plan, k, early.value) else Standing(opening, plan, k)
      requires early.Some? ==> early.value == Aborted || early.value == Limit
      modifies this`trace
      ensures var plan, opening := Plan(ctx, script), Opening(leading);
        trace == opening + Yielded(ctx, plan, k) + Closing(script, TurnCount(plan, k), early)
      ensures Agrees(result) && result.turns == turnsRun
    {
      hide Plan, Yielded, TurnCount, Written, Gather, Agrees;
      ghost var plan, opening := Plan(ctx, script), Opening(leading);
      if early.Some? {
        Agreement(leading, early.value == Limit);
        return SessionResult(early.value == Limit, leading + Concat(finalTextParts), turnsRun, changedFiles,
                             controlTokens);
      }
      ghost var before := trace;
      var charged := if turnsRun < 1 then 1 else turnsRun;
      Yield(Usage(10 * charged, 5 * charged), opening);
      if script.endsInError {
        Yield(Failed, opening);
        Yield(Ended(Error), opening);
        assert trace == before + Closing(script, turnsRun, early);
        Agreement(leading, false);
        return SessionResult(false, leading + Concat(finalTextParts), turnsRun, changedFiles, controlTokens);
      }
      Yield(Ended(Complete), opening);
      assert trace == before + Closing(script, turnsRun, early);
      Agreement(leading, true);
      return SessionResult(true, leading + Concat(finalTextParts), turnsRun, changedFiles, controlTokens);
    }

    method RejectModel() returns (result: SessionResult)
      requires trace == [Started] && turnsRun == 0 && Reported(Opening(""))
      requires finalTextParts == [] && controlTokens == [] && changedFiles == []
      modifies this`trace
      ensures trace == [Started, Failed, Ended(Error)] && Agrees(result) && result.turns == turnsRun
    {
      hide Gather, Agrees;
      Yield(Failed, Opening(""));
      Yield(Ended(Error), Opening(""));
      Agreement("", false);
      return SessionResult(false, "", 0, [], []);
    }

    /** A fresh session. An unknown model fails it whatever the script is. */
    method RunScript(script: Script, modelKnown: bool) returns (result: SessionResult)
      requires Fresh()
      modifies this
      ensures !modelKnown ==> trace == [Started, Failed, Ended(Error)] && disk == []
      ensures modelKnown ==> Completed(script, "")
      ensures Agrees(result) && result.turns == turnsRun
    {
      hide Gather, Plan, Play, Stop, Yielded, TurnCount, Written;
      trace := [Started];
      BeginReport("");
      if !modelKnown {
        result := RejectModel();
        return;
      }
      var early := RunScriptPhases(script, Opening(""));
      result := Finish(script, early, "", Play(ctx, Plan(ctx, script), |Opening("")|, 0).items);
    }

    /** A resumed session: the remembered text comes first and is not scanned for control tokens again. */
    method RunResumedScript(script: Script, remembered: Option<string>) returns (result: SessionResult)
      requires Fresh()
      modifies this
      ensures Completed(script, if remembered.Some? then remembered.value else "")
      ensures Agrees(result) && result.turns == turnsRun
    {
      hide Gather, Plan, Play, Stop, Yielded, TurnCount, Written;
      trace := [Started];
      var leading := "";
      if remembered.Some? && remembered.value != "" {
        trace := trace + [Said(remembered.value)];
        leading := remembered.value;
      }
      BeginReport(leading);
      var early := RunScriptPhases(script, Opening(leading));
      result := Finish(script, early, leading, Play(ctx, Plan(ctx, script), |Opening(leading)|, 0).items);
    }

    lemma BeginReport(remembered: string)
      requires trace == Opening(remembered) && finalTextParts == [] && controlTokens == [] && changedFiles == []
      ensures Reported(Opening(remembered))
    {
      assert trace[|Opening(remembered)|..] == [];
    }

    /** A whole session: its trace, and on disk the writes it played and no others. */
    ghost predicate Completed(script: Script, remembered: string)
      reads this
    {
      var plan := Plan(ctx, script);
      && trace == Trace(ctx, script, remembered)
      && disk == Written(ctx, plan, Play(ctx, plan, |Opening(remembered)|, 0).items)
      && turnsRun == TurnCount(plan, Play(ctx, plan, |Opening(remembered)|, 0).items)
    }
  }

  lemma PlayStopping(ctx: Context, plan: seq<Item>, before: nat, k: nat)
    requires k <= |plan|
    ensures Stop(ctx, plan, before, k).Some? ==>
              Play(ctx, plan, before, k) == Played(k, Stop(ctx, plan, before, k))
    ensures Stop(ctx, plan, before, k).None? && k < |plan| ==>
              Play(ctx, plan, before, k) == Play(ctx, plan, before, k + 1)
  {
    hide Stop;
  }
}
