/** The append protocol of one run's event log as a state machine: any number of concurrent `appendEvent`
    calls chained on the run's promise queue, each advancing by the atomic steps its file operations take,
    any of which may fail, with a crash and restart possible between any two. */
module AppendProtocol {
  import opened Wrappers
  import opened LogFormat
  import Redact

  /** The file as the operating system shows it, and every content a crash could leave it with: all it has
      held since the last `fsync` that succeeded. `None` is a file that does not exist. */
  datatype Disk = Disk(file: Option<string>, images: set<Option<string>>)
  {
    predicate Consistent() {
      file in images
    }

    function Write(content: string): Disk {
      Disk(Some(content), images + {Some(content)})
    }

    function Synced(): Disk {
      Disk(file, {file})
    }
  }

  function Text(image: Option<string>): string {
    match image
    case None => ""
    case Some(s) => s
  }

  /** What a call was given, with the outcome `redactPayload` has on its payload. */
  datatype Request = Request(meta: Meta, redacted: Result<Redact.Tree, Redact.Error>)

  datatype Outcome = Resolved(event: Event) | Rejected

  /** Where one call stands. */
  datatype Stage =
    | Waiting                                  // chained behind the previous call's settlement
    | Reading                                  // determineLastSeq found no cached number
    | Torn(content: string)                    // read a torn file; about to reopen it with 'w'
    | Rewriting(content: string, before: set<Option<string>>)  // reopened (images until then kept in before);
                                               // writing the complete lines back
    | Rewritten(content: string)               // written back and fsync'd; about to close
    | Numbered(seqNo: nat)                     // the next number is known; about to redact and append
    | Appending(event: Event, pre: string)     // opened for append when the file held pre
    | RollingBack(event: Event, pre: string)   // the write or the fsync failed; about to truncate
    | Flushed(event: Event, pre: string)       // written and fsync'd; about to close
    | Settled(outcome: Outcome)

  /** One call: the settled tail it was chained on, its request and its stage. */
  datatype Op = Op(prev: Option<nat>, request: Request, stage: Stage)

  /** The state of one run: its file, its `lastSeqCache` entry, the calls of the current process, and the
      tail `runQueues` holds. `offered` and `acked` record the history: every event whose append was opened,
      and every event a call returned, in order. */
  datatype State = State(
    disk: Disk,
    cache: Option<nat>,
    ops: seq<Op>,
    tail: Option<nat>,
    offered: set<Event>,
    acked: seq<Event>)
  {
    predicate At(i: nat, stage: Stage) {
      i < |ops| && ops[i].stage == stage
    }

    function Move(i: nat, stage: Stage): State
      requires i < |ops|
    {
      this.(ops := ops[i := ops[i].(stage := stage)])
    }
  }

  const Initial := State(Disk(None, {None}), None, [], None, {}, [])

  // ----- Steps -----

  /** `enqueueForRun`: the new call is chained on the current tail and becomes the tail. */
  function Enqueue(s: State, request: Request): State {
    s.(ops := s.ops + [Op(s.tail, request, Waiting)], tail := Some(|s.ops|))
  }

  predicate Startable(s: State, i: nat) {
    && s.At(i, Waiting)
    && (s.ops[i].prev.None? ||
        (s.ops[i].prev.value < |s.ops| && s.ops[s.ops[i].prev.value].stage.Settled?))
  }

  /** The call begins: a cached number is trusted, otherwise the file is read. */
  function Begin(s: State, i: nat): State
    requires i < |s.ops|
  {
    s.Move(i, if s.cache.Some? then Numbered(s.cache.value + 1) else Reading)
  }

  /** The file has been read; a torn one is rewritten before its last line is parsed. */
  function ReadDone(c: Codec, s: State, i: nat): State
    requires i < |s.ops|
  {
    var content := Text(s.disk.file);
    if content == "" || EndsWithNewline(content) then s.Move(i, AfterRead(c, content))
    else s.Move(i, Torn(content))
  }

  function AfterRead(c: Codec, content: string): Stage {
    match LastSeq(c, content)
    case Some(n) => Numbered(n + 1)
    case None => Settled(Rejected)
  }

  function Fail(s: State, i: nat): State
    requires i < |s.ops|
  {
    s.Move(i, Settled(Rejected))
  }

  /** A failure inside the append: the cached number is dropped. */
  function FailAppend(s: State, i: nat): State
    requires i < |s.ops|
  {
    Fail(s, i).(cache := None)
  }

  function EventFor(request: Request, seqNo: nat): Event
    requires request.redacted.Ok?
  {
    Event(seqNo, request.meta, request.redacted.value)
  }

  function OpenAppend(s: State, i: nat): State
    requires i < |s.ops| && s.ops[i].stage.Numbered? && s.ops[i].request.redacted.Ok?
  {
    var event := EventFor(s.ops[i].request, s.ops[i].stage.seqNo);
    var pre := Text(s.disk.file);
    s.Move(i, Appending(event, pre)).(disk := s.disk.Write(pre), offered := s.offered + {event})
  }

  function Acknowledge(s: State, i: nat): State
    requires i < |s.ops| && s.ops[i].stage.Flushed?
  {
    var event := s.ops[i].stage.event;
    s.Move(i, Settled(Resolved(event))).(cache := Some(event.seqNo), acked := s.acked + [event])
  }

  /** The process dies and a new one starts with empty memory; the file stays as the system shows it. */
  function Restart(s: State): State {
    s.(cache := None, ops := [], tail := None)
  }

  /** The machine loses power: the file is left with one of its images. */
  function PowerLoss(s: State, image: Option<string>): State {
    Restart(s).(disk := Disk(image, {image}))
  }

  datatype Label =
    | Called(request: Request)
    | Started(i: nat)
    | ReadFailed(i: nat)
    | ReadOk(i: nat)
    | RewriteRefused(i: nat)            // open with 'w' fails
    | RewriteOpened(i: nat)             // open with 'w' succeeds and empties the file
    | RewriteWrote(i: nat, cut: string) // some bytes of the complete lines are back
    | RewriteSynced(i: nat)
    | RewriteFailed(i: nat)             // an error between the reopening and the completed fsync
    | RewriteClosed(i: nat, ok: bool)
    | RedactFailed(i: nat)              // redactPayload throws: before the append's own try
    | AppendRefused(i: nat, created: bool)  // mkdir, open, stat or the serialiser fails
    | AppendOpened(i: nat)
    | AppendWrote(i: nat, cut: string)  // some bytes of the line are written
    | AppendFailed(i: nat)              // the write or the fsync fails
    | AppendSynced(i: nat)
    | RolledBack(i: nat, cut: string)   // the truncate succeeds, fails, or stops part way
    | AppendClosed(i: nat, ok: bool)
    | Killed
    | PowerLost(image: Option<string>)

  ghost predicate Step(c: Codec, s: State, l: Label, s': State) {
    match l
    case Called(request) => s' == Enqueue(s, request)
    case Started(i) => Startable(s, i) && s' == Begin(s, i)
    case ReadFailed(i) => s.At(i, Reading) && s' == Fail(s, i)
    case ReadOk(i) => s.At(i, Reading) && s' == ReadDone(c, s, i)
    case RewriteRefused(i) => i < |s.ops| && s.ops[i].stage.Torn? && s' == Fail(s, i)
    case RewriteOpened(i) =>
      && i < |s.ops| && s.ops[i].stage.Torn?
      && s' == s.Move(i, Rewriting(s.ops[i].stage.content, s.disk.images)).(disk := s.disk.Write(""))
    case RewriteWrote(i, cut) =>
      && i < |s.ops| && s.ops[i].stage.Rewriting?
      && CutOf(UpToLastNewline(s.ops[i].stage.content), cut)
      && s' == s.(disk := s.disk.Write(cut))
    case RewriteSynced(i) =>
      && i < |s.ops| && s.ops[i].stage.Rewriting?
      && s.disk.file == Some(UpToLastNewline(s.ops[i].stage.content))
      && s' == s.Move(i, Rewritten(s.ops[i].stage.content)).(disk := s.disk.Synced())
    case RewriteFailed(i) => i < |s.ops| && s.ops[i].stage.Rewriting? && s' == Fail(s, i)
    case RewriteClosed(i, ok) =>
      && i < |s.ops| && s.ops[i].stage.Rewritten?
      && s' == if ok then s.Move(i, AfterRead(c, s.ops[i].stage.content)) else Fail(s, i)
    case RedactFailed(i) =>
      && i < |s.ops| && s.ops[i].stage.Numbered? && s.ops[i].request.redacted.Err?
      && s' == Fail(s, i)
    case AppendRefused(i, created) =>
      && i < |s.ops| && s.ops[i].stage.Numbered? && s.ops[i].request.redacted.Ok?
      && s' == (if created then FailAppend(s, i).(disk := s.disk.Write(Text(s.disk.file))) else FailAppend(s, i))
    case AppendOpened(i) =>
      && i < |s.ops| && s.ops[i].stage.Numbered? && s.ops[i].request.redacted.Ok?
      && s' == OpenAppend(s, i)
    case AppendWrote(i, cut) =>
      && i < |s.ops| && s.ops[i].stage.Appending?
      && var Appending(event, pre) := s.ops[i].stage;
         && CutOf(c.Line(event), cut)
         && s' == s.(disk := s.disk.Write(pre + cut))
    case AppendFailed(i) =>
      && i < |s.ops| && s.ops[i].stage.Appending?
      && s' == s.Move(i, RollingBack(s.ops[i].stage.event, s.ops[i].stage.pre))
    case AppendSynced(i) =>
      && i < |s.ops| && s.ops[i].stage.Appending?
      && var Appending(event, pre) := s.ops[i].stage;
         && s.disk.file == Some(pre + c.Line(event))
         && s' == s.Move(i, Flushed(event, pre)).(disk := s.disk.Synced())
    case RolledBack(i, cut) =>
      && i < |s.ops| && s.ops[i].stage.RollingBack?
      && var pre := s.ops[i].stage.pre;
         && pre <= Text(s.disk.file) && CutOf(Text(s.disk.file)[|pre|..], cut)
         && s' == FailAppend(s, i).(disk := s.disk.Write(pre + cut))
    case AppendClosed(i, ok) =>
      && i < |s.ops| && s.ops[i].stage.Flushed?
      && s' == if ok then Acknowledge(s, i) else FailAppend(s, i)
    case Killed => s' == Restart(s)
    case PowerLost(image) => image in s.disk.images && s' == PowerLoss(s, image)
  }

  /** A run of the protocol: states linked by steps, starting anywhere. */
  ghost predicate Run(c: Codec, states: seq<State>, labels: seq<Label>) {
    && |states| == |labels| + 1
    && forall k | 0 <= k < |labels| :: Step(c, states[k], labels[k], states[k + 1])
  }

  // ----- The invariant -----

  /** The promise chain: each call waits for the one before it, and the tail is the last call. */
  ghost predicate QueueInv(s: State) {
    && s.tail == (if s.ops == [] then None else Some(|s.ops| - 1))
    && (forall i | 0 <= i < |s.ops| :: s.ops[i].prev == if i == 0 then None else Some(i - 1))
    && (forall i, j | 0 <= i < j < |s.ops| && !s.ops[i].stage.Settled? :: s.ops[j].stage.Waiting?)
  }

  /** Every content the file has, had, or could be left with is a gapless log plus at most a fragment, and
      holds nothing but events that were offered. */
  ghost predicate DiskInv(c: Codec, s: State) {
    && s.disk.Consistent()
    && forall image | image in s.disk.images :: Sound(c, s.offered, Text(image))
  }

  ghost predicate Sound(c: Codec, offered: set<Event>, content: string) {
    && Good(c, content)
    && forall e | e in EventsIn(c, content) :: e in offered
  }

  /** What each stage of a call knows about the file and the cache. */
  ghost predicate StageInv(c: Codec, s: State, stage: Stage) {
    var now := Text(s.disk.file);
    match stage
    case Waiting => true
    case Settled(_) => true
    case Reading => s.cache.None?
    case Torn(content) => s.cache.None? && s.disk.file == Some(content)
    case Rewriting(content, before) =>
      && s.cache.None? && s.disk.file.Some? && Sound(c, s.offered, content)
      && CutOf(UpToLastNewline(content), now) && Some("") in s.disk.images
      && (forall image | image in s.disk.images :: image in before || CutOf(UpToLastNewline(content), Text(image)))
    case Rewritten(content) =>
      && s.cache.None? && Sound(c, s.offered, content)
      && s.disk.file == Some(UpToLastNewline(content))
    case Numbered(n) =>
      && Whole(c, now) && n == |EventsIn(c, now)| + 1
      && (s.cache.Some? ==> s.cache.value == n - 1)
    case Appending(e, pre) => AppendInv(c, s, e, pre) && Some(pre) in s.disk.images
    case RollingBack(e, pre) => AppendInv(c, s, e, pre) && Some(pre) in s.disk.images
    case Flushed(e, pre) =>
      && AppendInv(c, s, e, pre)
      && s.disk == Disk(Some(pre + c.Line(e)), {Some(pre + c.Line(e))})
  }

  ghost predicate AppendInv(c: Codec, s: State, e: Event, pre: string) {
    && Whole(c, pre) && e.seqNo == |EventsIn(c, pre)| + 1 && e in s.offered
    && (s.cache.Some? ==> s.cache.value == e.seqNo - 1)
    && s.disk.file.Some? && pre <= Text(s.disk.file) && CutOf(c.Line(e), Text(s.disk.file)[|pre|..])
  }

  predicate Quiet(stage: Stage) {
    stage.Waiting? || stage.Settled?
  }

  /** With no call in progress, a cached number is the number of events of a file with no torn tail. */
  ghost predicate CacheInv(c: Codec, s: State) {
    (forall i | 0 <= i < |s.ops| :: Quiet(s.ops[i].stage)) && s.cache.Some? ==>
      Whole(c, Text(s.disk.file)) && s.cache.value == |EventsIn(c, Text(s.disk.file))|
  }

  ghost predicate Inv(c: Codec, s: State) {
    && QueueInv(s)
    && DiskInv(c, s)
    && (forall i | 0 <= i < |s.ops| && !Quiet(s.ops[i].stage) :: StageInv(c, s, s.ops[i].stage))
    && CacheInv(c, s)
  }

  lemma InitialInv(c: Codec)
    requires c.Valid()
    ensures Inv(c, Initial)
  {
    EmptyLog(c);
  }

  /** At most one call is between its start and its settlement; everything before it has settled and
      everything after it is waiting. */
  lemma OthersQuiet(s: State, i: nat)
    requires QueueInv(s) && i < |s.ops| && !Quiet(s.ops[i].stage)
    ensures forall j | 0 <= j < i :: s.ops[j].stage.Settled?
    ensures forall j | i < j < |s.ops| :: s.ops[j].stage.Waiting?
  {
  }

  /** The calls' part of one step: call `i`, which is in progress or may start, moves to `stage`. */
  ghost predicate Moves(s: State, i: nat, stage: Stage, s': State) {
    && i < |s.ops| && !stage.Waiting?
    && (Startable(s, i) || !Quiet(s.ops[i].stage))
    && s'.ops == s.ops[i := s.ops[i].(stage := stage)]
    && s'.tail == s.tail
  }

  lemma MoveKeepsInv(c: Codec, s: State, i: nat, stage: Stage, s': State)
    requires QueueInv(s) && Moves(s, i, stage, s')
    requires DiskInv(c, s') && StageInv(c, s', stage)
    requires stage.Settled? && s'.cache.Some? ==>
      Whole(c, Text(s'.disk.file)) && s'.cache.value == |EventsIn(c, Text(s'.disk.file))|
    ensures Inv(c, s')
  {
    hide Whole, EventsIn, Good, Sound, StageInv;
    assert forall j | 0 <= j < i :: s.ops[j].stage.Settled?;
    assert forall j | i < j < |s.ops| :: s.ops[j].stage.Waiting?;
    assert forall j | 0 <= j < |s.ops| && j != i :: s'.ops[j] == s.ops[j];
    assert s'.ops[i].stage == stage;
  }

  /** What the file can hold grows only by contents that are themselves sound. */
  lemma WriteKeepsDiskInv(c: Codec, s: State, content: string, offered: set<Event>)
    requires DiskInv(c, s) && s.offered <= offered && Sound(c, offered, content)
    ensures DiskInv(c, s.(disk := s.disk.Write(content), offered := offered))
  {
  }

  lemma OpenRewriteInv(c: Codec, s: State, i: nat, s': State)
    requires c.Valid() && Inv(c, s) && Step(c, s, RewriteOpened(i), s')
    ensures Inv(c, s')
  {
    hide Good, Whole, EventsIn, LogText, UpToLastNewline, CutOf, LastSeq, Codec.Valid;
    var content := s.ops[i].stage.content;
    EmptyLog(c);
    NothingLeft(UpToLastNewline(content));
    WriteKeepsDiskInv(c, s, "", s.offered);
    MoveKeepsInv(c, s, i, s'.ops[i].stage, s');
  }

  lemma WriteBackInv(c: Codec, s: State, i: nat, cut: string, s': State)
    requires c.Valid() && Inv(c, s) && Step(c, s, RewriteWrote(i, cut), s')
    ensures Inv(c, s')
  {
    hide Good, Whole, EventsIn, LogText, UpToLastNewline, CutOf, LastSeq, Codec.Valid;
    var content := s.ops[i].stage.content;
    RecoveredLog(c, content);
    CutGood(c, UpToLastNewline(content), cut);
    WriteKeepsDiskInv(c, s, cut, s.offered);
    assert s'.ops == s.ops[i := s.ops[i].(stage := s.ops[i].stage)];
    MoveKeepsInv(c, s, i, s'.ops[i].stage, s');
  }

  lemma OpenAppendInv(c: Codec, s: State, i: nat, s': State)
    requires c.Valid() && Inv(c, s) && Step(c, s, AppendOpened(i), s')
    ensures Inv(c, s')
  {
    hide Good, Whole, EventsIn, LogText, UpToLastNewline, CutOf, LastSeq, Codec.Valid;
    var pre := Text(s.disk.file);
    NothingLeft(c.Line(s'.ops[i].stage.event));
    assert pre[|pre|..] == "";
    WriteKeepsDiskInv(c, s, pre, s'.offered);
    MoveKeepsInv(c, s, i, s'.ops[i].stage, s');
  }

  /** Any cut of the line after a whole log is sound. */
  lemma PartialLine(c: Codec, s: State, e: Event, pre: string, content: string)
    requires c.Valid() && DiskInv(c, s) && AppendInv(c, s, e, pre) && Some(pre) in s.disk.images
    requires pre <= content && CutOf(c.Line(e), content[|pre|..])
    ensures Sound(c, s.offered, content)
    ensures EventsIn(c, pre) <= EventsIn(c, content)
  {
    hide Good, Whole, EventsIn, LogText, UpToLastNewline, CutOf, LastSeq, Codec.Valid;
    assert content == pre + content[|pre|..];
    ExtendedLog(c, pre, e, content[|pre|..]);
    assert Sound(c, s.offered, Text(Some(pre)));
  }

  lemma WriteLineInv(c: Codec, s: State, i: nat, cut: string, s': State)
    requires c.Valid() && Inv(c, s) && Step(c, s, AppendWrote(i, cut), s')
    ensures Inv(c, s')
  {
    hide Good, Whole, EventsIn, LogText, UpToLastNewline, CutOf, LastSeq, Codec.Valid;
    var stage := s.ops[i].stage;
    var content := stage.pre + cut;
    assert content[|stage.pre|..] == cut;
    PartialLine(c, s, stage.event, stage.pre, content);
    WriteKeepsDiskInv(c, s, content, s.offered);
    assert s'.ops == s.ops[i := s.ops[i].(stage := stage)];
    MoveKeepsInv(c, s, i, stage, s');
  }

  lemma RollBackInv(c: Codec, s: State, i: nat, cut: string, s': State)
    requires c.Valid() && Inv(c, s) && Step(c, s, RolledBack(i, cut), s')
    ensures Inv(c, s')
  {
    hide Good, Whole, EventsIn, LogText, UpToLastNewline, CutOf, LastSeq, Codec.Valid;
    var stage := s.ops[i].stage;
    var content := stage.pre + cut;
    assert content[|stage.pre|..] == cut;
    CutOfCut(c.Line(stage.event), Text(s.disk.file)[|stage.pre|..], cut);
    PartialLine(c, s, stage.event, stage.pre, content);
    WriteKeepsDiskInv(c, s, content, s.offered);
    MoveKeepsInv(c, s, i, Settled(Rejected), s');
  }

  lemma CloseAppendInv(c: Codec, s: State, i: nat, ok: bool, s': State)
    requires c.Valid() && Inv(c, s) && Step(c, s, AppendClosed(i, ok), s')
    ensures Inv(c, s')
  {
    hide Good, Whole, EventsIn, LogText, UpToLastNewline, CutOf, LastSeq, Codec.Valid;
    var stage := s.ops[i].stage;
    NothingLeft(c.Line(stage.event));
    ExtendedLog(c, stage.pre, stage.event, c.Line(stage.event));
    MoveKeepsInv(c, s, i, s'.ops[i].stage, s');
  }

  lemma ReadInv(c: Codec, s: State, i: nat, s': State)
    requires c.Valid() && Inv(c, s) && Step(c, s, ReadOk(i), s')
    ensures Inv(c, s')
  {
    hide Good, Whole, EventsIn, LogText, UpToLastNewline, CutOf, LastSeq, Codec.Valid;
    var content := Text(s.disk.file);
    ReadGood(c, content);
    RecoveredLog(c, content);
    MoveKeepsInv(c, s, i, s'.ops[i].stage, s');
  }

  lemma SyncRewriteInv(c: Codec, s: State, i: nat, s': State)
    requires c.Valid() && Inv(c, s) && Step(c, s, RewriteSynced(i), s')
    ensures Inv(c, s')
  {
    hide Good, Whole, EventsIn, LogText, UpToLastNewline, CutOf, LastSeq, Codec.Valid;
    MoveKeepsInv(c, s, i, s'.ops[i].stage, s');
  }

  lemma CloseRewriteInv(c: Codec, s: State, i: nat, ok: bool, s': State)
    requires c.Valid() && Inv(c, s) && Step(c, s, RewriteClosed(i, ok), s')
    ensures Inv(c, s')
  {
    hide Good, Whole, EventsIn, LogText, UpToLastNewline, CutOf, LastSeq, Codec.Valid;
    var content := s.ops[i].stage.content;
    RecoveredLog(c, content);
    ReadGood(c, content);
    MoveKeepsInv(c, s, i, s'.ops[i].stage, s');
  }

  lemma RefuseInv(c: Codec, s: State, i: nat, created: bool, s': State)
    requires c.Valid() && Inv(c, s) && Step(c, s, AppendRefused(i, created), s')
    ensures Inv(c, s')
  {
    hide Good, Whole, EventsIn, LogText, UpToLastNewline, CutOf, LastSeq, Codec.Valid;
    WriteKeepsDiskInv(c, s, Text(s.disk.file), s.offered);
    MoveKeepsInv(c, s, i, Settled(Rejected), s');
  }

  lemma RestartInv(c: Codec, s: State, l: Label, s': State)
    requires Inv(c, s) && (l.Killed? || l.PowerLost?) && Step(c, s, l, s')
    ensures Inv(c, s')
  {
    hide Good, Whole, EventsIn, LogText, UpToLastNewline, CutOf, LastSeq, Codec.Valid;
  }

  lemma EnqueueKeepsQueue(s: State, request: Request)
    requires QueueInv(s)
    ensures QueueInv(Enqueue(s, request))
  {
    assert forall i | 0 <= i < |s.ops| :: Enqueue(s, request).ops[i] == s.ops[i];
  }

  lemma EnqueueInv(c: Codec, s: State, l: Label, s': State)
    requires Inv(c, s) && l.Called? && Step(c, s, l, s')
    ensures Inv(c, s')
  {
    hide Good, Whole, EventsIn, Sound, QueueInv;
    EnqueueKeepsQueue(s, l.request);
    assert forall i | 0 <= i < |s.ops| :: s'.ops[i] == s.ops[i];
    forall i | 0 <= i < |s'.ops| && !Quiet(s'.ops[i].stage)
      ensures StageInv(c, s', s'.ops[i].stage)
    {
      assert i < |s.ops| && s'.ops[i] == s.ops[i];
      assert StageInv(c, s, s.ops[i].stage);
    }
  }

  /** The steps that change neither the bytes nor the images of the file. */
  lemma FileUntouchedInv(c: Codec, s: State, l: Label, s': State)
    requires c.Valid() && Inv(c, s) && Step(c, s, l, s')
    requires l.Started? || l.ReadFailed? || l.RewriteRefused? || l.RewriteFailed? || l.RedactFailed? ||
             l.AppendFailed? || l.AppendSynced?
    ensures Inv(c, s')
  {
    hide Good, Whole, EventsIn, LogText, UpToLastNewline, CutOf, LastSeq, Codec.Valid;
    assert c.Valid() && Inv(c, s);
    MoveKeepsInv(c, s, l.i, s'.ops[l.i].stage, s');
  }

  /** Every step of the protocol keeps the invariant. */
  lemma StepKeepsInv(c: Codec, s: State, l: Label, s': State)
    requires c.Valid() && Inv(c, s) && Step(c, s, l, s')
    ensures Inv(c, s')
  {
    hide *;
    match l
    case Called(request) => EnqueueInv(c, s, l, s');
    case ReadOk(i) => ReadInv(c, s, i, s');
    case RewriteOpened(i) => OpenRewriteInv(c, s, i, s');
    case RewriteWrote(i, cut) => WriteBackInv(c, s, i, cut, s');
    case RewriteSynced(i) => SyncRewriteInv(c, s, i, s');
    case RewriteClosed(i, ok) => CloseRewriteInv(c, s, i, ok, s');
    case AppendRefused(i, created) => RefuseInv(c, s, i, created, s');
    case AppendOpened(i) => OpenAppendInv(c, s, i, s');
    case AppendWrote(i, cut) => WriteLineInv(c, s, i, cut, s');
    case RolledBack(i, cut) => RollBackInv(c, s, i, cut, s');
    case AppendClosed(i, ok) => CloseAppendInv(c, s, i, ok, s');
    case Killed => RestartInv(c, s, l, s');
    case PowerLost(_) => RestartInv(c, s, l, s');
    case _ => FileUntouchedInv(c, s, l, s');
  }
}
