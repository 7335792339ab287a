/** What the append protocol promises over whole runs: logs that always read back without a gap, durability of
    every acknowledged event, order, and progress. */
module AppendGuarantees {
  import opened Wrappers
  import opened LogFormat
  import opened AppendProtocol

  // ----- Gapless at every moment -----

  lemma {:induction false} RunKeepsInv(c: Codec, states: seq<State>, labels: seq<Label>, k: nat)
    requires c.Valid() && Run(c, states, labels) && Inv(c, states[0]) && k < |states|
    ensures Inv(c, states[k])
  {
    hide Inv, Step;
    if k > 0 {
      RunKeepsInv(c, states, labels, k - 1);
      assert Step(c, states[k - 1], labels[k - 1], states[k - 1 + 1]);
      StepKeepsInv(c, states[k - 1], labels[k - 1], states[k]);
    }
  }

  lemma RunExtends(c: Codec, states: seq<State>, labels: seq<Label>, l: Label, s': State)
    requires Run(c, states, labels) && Step(c, states[|states| - 1], l, s')
    ensures Run(c, states + [s'], labels + [l])
  {
    hide Step;
    var states', labels' := states + [s'], labels + [l];
    forall k | 0 <= k < |labels'|
      ensures Step(c, states'[k], labels'[k], states'[k + 1])
    {
      if k < |labels| {
        assert Step(c, states[k], labels[k], states[k + 1]);
      }
    }
  }

  /** In every reachable state, mid-write included, a reader of the file sees sequence numbers 1..n and no
      error; the same holds of every content a power loss could leave. Nothing is read that was not offered
      by an append. */
  lemma ReadAtAnyMoment(c: Codec, states: seq<State>, labels: seq<Label>, k: nat, image: Option<string>)
    requires c.Valid() && Run(c, states, labels) && states[0] == Initial && k < |states|
    requires image == states[k].disk.file || image in states[k].disk.images
    ensures ReadAll(c, Text(image)).error == None
    ensures Gapless(ReadAll(c, Text(image)).events)
    ensures forall e | e in ReadAll(c, Text(image)).events :: e in states[k].offered
  {
    InitialInv(c);
    RunKeepsInv(c, states, labels, k);
    assert Sound(c, states[k].offered, Text(image));
    ReadGood(c, Text(image));
  }

  // ----- Durability -----

  /** The content holds `e` at its own sequence number. */
  ghost predicate Recorded(c: Codec, content: string, e: Event) {
    var es := EventsIn(c, content);
    1 <= e.seqNo <= |es| && es[e.seqNo - 1] == e
  }

  /** The recovery rewrite is between reopening the file with 'w' and its completed fsync. */
  ghost predicate InsideRewrite(s: State) {
    exists i :: 0 <= i < |s.ops| && s.ops[i].stage.Rewriting?
  }

  /** The one window in which acknowledged events can be lost. */
  ghost predicate LosingStep(s: State, l: Label) {
    l.RewriteFailed? || ((l.Killed? || l.PowerLost?) && InsideRewrite(s))
  }

  ghost predicate HeldByRewrite(c: Codec, stage: Stage, e: Event)
    requires stage.Rewriting?
  {
    && Recorded(c, stage.content, e)
    && forall image | image in stage.before :: Recorded(c, Text(image), e)
  }

  /** `e` is in every content the file could be found with; during a rewrite, in the text being restored and in
      every content from before the file was reopened. */
  ghost predicate Held(c: Codec, s: State, e: Event) {
    && (forall i | 0 <= i < |s.ops| && s.ops[i].stage.Rewriting? :: HeldByRewrite(c, s.ops[i].stage, e))
    && (!InsideRewrite(s) ==> forall image | image in s.disk.images :: Recorded(c, Text(image), e))
  }

  lemma LongerLogRecords(c: Codec, shorter: string, longer: string, e: Event)
    requires EventsIn(c, shorter) <= EventsIn(c, longer) && Recorded(c, shorter, e)
    ensures Recorded(c, longer, e)
  {
  }

  /** A step that leaves the rewriting calls alone and shows the file no new text. */
  ghost predicate Inert(s: State, s': State) {
    && (forall image | image in s'.disk.images :: image in s.disk.images || Text(image) == Text(s.disk.file))
    && (forall i | 0 <= i < |s'.ops| && s'.ops[i].stage.Rewriting? :: i < |s.ops| && s'.ops[i] == s.ops[i])
    && (InsideRewrite(s) ==> InsideRewrite(s'))
  }

  lemma InertKeepsHeld(c: Codec, s: State, s': State, e: Event)
    requires s.disk.Consistent() && Inert(s, s') && Held(c, s, e)
    ensures Held(c, s', e)
  {
    hide Recorded;
  }

  /** The only call in progress is `i`: no rewrite is under way unless `i` is the one rewriting. */
  lemma NoOtherRewrite(s: State, i: nat)
    requires QueueInv(s) && i < |s.ops| && !s.ops[i].stage.Rewriting?
    requires !Quiet(s.ops[i].stage) || Startable(s, i)
    ensures !InsideRewrite(s)
  {
  }

  lemma FileUntouchedKeepsHeld(c: Codec, s: State, l: Label, s': State, e: Event)
    requires Inv(c, s) && Step(c, s, l, s') && Held(c, s, e)
    requires l.Started? || l.ReadFailed? || l.ReadOk? || l.RewriteRefused? || l.RewriteClosed? ||
             l.RedactFailed? || l.AppendRefused? || l.AppendOpened? || l.AppendFailed? || l.AppendSynced? ||
             l.AppendClosed?
    ensures Held(c, s', e)
  {
    hide Held, DiskInv, StageInv, CacheInv, LastSeq;
    assert s.disk.Consistent() by { assert DiskInv(c, s); DiskConsistent(c, s); }
    NoOtherRewrite(s, l.i);
    assert forall i | 0 <= i < |s'.ops| && i != l.i :: s'.ops[i] == s.ops[i];
    InertKeepsHeld(c, s, s', e);
  }

  lemma DiskConsistent(c: Codec, s: State)
    requires DiskInv(c, s)
    ensures s.disk.Consistent()
  {
  }

  lemma CalledKeepsHeld(c: Codec, s: State, l: Label, s': State, e: Event)
    requires Inv(c, s) && Step(c, s, l, s') && Held(c, s, e) && l.Called?
    ensures Held(c, s', e)
  {
    hide Recorded, StageInv, CacheInv, Sound;
    assert forall i | 0 <= i < |s.ops| :: s'.ops[i] == s.ops[i];
    InertKeepsHeld(c, s, s', e);
  }

  lemma RewriteKeepsHeld(c: Codec, s: State, l: Label, s': State, e: Event)
    requires c.Valid() && Inv(c, s) && Step(c, s, l, s') && Held(c, s, e)
    requires l.RewriteOpened? || l.RewriteWrote? || l.RewriteSynced?
    ensures Held(c, s', e)
  {
    hide EventsIn, Good, Whole, UpToLastNewline, LogText, CacheInv;
    assert forall i | 0 <= i < |s'.ops| && i != l.i :: s'.ops[i] == s.ops[i];
    var content := s.ops[l.i].stage.content;
    if l.RewriteOpened? {
      NoOtherRewrite(s, l.i);
      assert Recorded(c, Text(s.disk.file), e);
      assert s'.ops[l.i].stage.Rewriting?;
    } else {
      assert s.ops[l.i].stage.Rewriting? && HeldByRewrite(c, s.ops[l.i].stage, e);
      if l.RewriteSynced? {
        RecoveredLog(c, content);
        LongerLogRecords(c, content, UpToLastNewline(content), e);
      } else {
        assert s'.ops[l.i].stage.Rewriting?;
      }
    }
  }

  lemma WriteKeepsHeld(c: Codec, s: State, l: Label, s': State, e: Event)
    requires c.Valid() && Inv(c, s) && Step(c, s, l, s') && Held(c, s, e)
    requires l.AppendWrote? || l.RolledBack?
    ensures Held(c, s', e)
  {
    hide EventsIn, Good, Whole, CacheInv, Recorded, CutOf;
    NoOtherRewrite(s, l.i);
    assert forall i | 0 <= i < |s'.ops| && i != l.i :: s'.ops[i] == s.ops[i];
    var event, pre := s.ops[l.i].stage.event, s.ops[l.i].stage.pre;
    assert Recorded(c, Text(Some(pre)), e);
    if l.RolledBack? {
      CutOfCut(c.Line(event), Text(s.disk.file)[|pre|..], l.cut);
    }
    assert Text(s'.disk.file)[|pre|..] == l.cut;
    PartialLine(c, s, event, pre, Text(s'.disk.file));
    LongerLogRecords(c, pre, Text(s'.disk.file), e);
  }

  lemma RestartKeepsHeld(c: Codec, s: State, l: Label, s': State, e: Event)
    requires Inv(c, s) && Step(c, s, l, s') && Held(c, s, e) && !LosingStep(s, l)
    requires l.Killed? || l.PowerLost?
    ensures Held(c, s', e)
  {
    hide Recorded;
  }

  /** Every step outside the losing window keeps what is held. */
  lemma StepKeepsHeld(c: Codec, s: State, l: Label, s': State, e: Event)
    requires c.Valid() && Inv(c, s) && Step(c, s, l, s') && Held(c, s, e) && !LosingStep(s, l)
    ensures Held(c, s', e)
  {
    assert !l.RewriteFailed?;
    hide *;
    match l
    case Called(_) => CalledKeepsHeld(c, s, l, s', e);
    case RewriteOpened(_) => RewriteKeepsHeld(c, s, l, s', e);
    case RewriteWrote(_, _) => RewriteKeepsHeld(c, s, l, s', e);
    case RewriteSynced(_) => RewriteKeepsHeld(c, s, l, s', e);
    case AppendWrote(_, _) => WriteKeepsHeld(c, s, l, s', e);
    case RolledBack(_, _) => WriteKeepsHeld(c, s, l, s', e);
    case Killed => RestartKeepsHeld(c, s, l, s', e);
    case PowerLost(_) => RestartKeepsHeld(c, s, l, s', e);
    case _ => FileUntouchedKeepsHeld(c, s, l, s', e);
  }

  /** When a call returns its event, the event is held. */
  lemma AcknowledgedIsHeld(c: Codec, s: State, i: nat, s': State)
    requires c.Valid() && Inv(c, s) && Step(c, s, AppendClosed(i, true), s')
    ensures Held(c, s', s.ops[i].stage.event)
    ensures s'.acked == s.acked + [s.ops[i].stage.event]
  {
    hide Good, Whole, EventsIn, LogText;
    var event, pre := s.ops[i].stage.event, s.ops[i].stage.pre;
    NoOtherRewrite(s, i);
    assert forall j | 0 <= j < |s'.ops| && j != i :: s'.ops[j] == s.ops[j];
    NothingLeft(c.Line(event));
    ExtendedLog(c, pre, event, c.Line(event));
    LastIsRecorded(c, pre, pre + c.Line(event), event);
  }

  lemma LastIsRecorded(c: Codec, shorter: string, longer: string, e: Event)
    requires EventsIn(c, longer) == EventsIn(c, shorter) + [e] && e.seqNo == |EventsIn(c, shorter)| + 1
    ensures Recorded(c, longer, e)
  {
  }

  lemma {:induction false} RunKeepsHeld(c: Codec, states: seq<State>, labels: seq<Label>, m: nat, k: nat, e: Event)
    requires c.Valid() && Run(c, states, labels) && Inv(c, states[0]) && m <= k < |states|
    requires Held(c, states[m], e)
    requires forall n | m <= n < k :: !LosingStep(states[n], labels[n])
    ensures Held(c, states[k], e)
  {
    hide Inv, Step, Held, LosingStep;
    if m < k {
      RunKeepsHeld(c, states, labels, m, k - 1, e);
      RunKeepsInv(c, states, labels, k - 1);
      assert Step(c, states[k - 1], labels[k - 1], states[k - 1 + 1]);
      StepKeepsHeld(c, states[k - 1], labels[k - 1], states[k], e);
    }
  }

  /** An event `appendEvent` returned stays in the log at its sequence number through every later failure,
      kill, power loss and restart that does not fall inside a recovery rewrite: whenever no rewrite is under
      way, a reader of the file, or of anything a power loss could leave of it, finds it there. */
  lemma AcknowledgedIsDurable(
    c: Codec, states: seq<State>, labels: seq<Label>, m: nat, i: nat, k: nat, image: Option<string>)
    requires c.Valid() && Run(c, states, labels) && states[0] == Initial && m < k < |states|
    requires labels[m] == AppendClosed(i, true)
    requires forall n | m < n < k :: !LosingStep(states[n], labels[n])
    requires !InsideRewrite(states[k]) && (image == states[k].disk.file || image in states[k].disk.images)
    ensures i < |states[m].ops| && states[m].ops[i].stage.Flushed?
    ensures Recorded(c, Text(image), states[m].ops[i].stage.event)
  {
    InitialInv(c);
    RunKeepsInv(c, states, labels, m);
    RunKeepsInv(c, states, labels, k);
    assert Step(c, states[m], labels[m], states[m + 1]);
    AcknowledgedIsHeld(c, states[m], i, states[m + 1]);
    RunKeepsHeld(c, states, labels, m + 1, k, states[m].ops[i].stage.event);
  }

  lemma LosingStepWritesNothing(c: Codec, s: State, l: Label, s': State)
    requires Step(c, s, l, s') && LosingStep(s, l)
    ensures s'.disk.images <= s.disk.images
    ensures s'.disk.file == s.disk.file || (l.PowerLost? && s'.disk.file in s.disk.images)
  {
  }

  /** A failure inside the rewrite leaves nothing worse than a prefix: every content the file can then be found
      with either holds the complete lines of a prefix of the log being restored, or still holds every event
      that was held. The log being restored holds them all. */
  lemma LosingStepLeavesPrefix(c: Codec, s: State, l: Label, s': State) returns (content: string)
    requires c.Valid() && Inv(c, s) && Step(c, s, l, s') && LosingStep(s, l)
    ensures forall e | Held(c, s, e) :: Recorded(c, content, e)
    ensures EventsIn(c, Text(s'.disk.file)) <= EventsIn(c, content) ||
            (l.PowerLost? && forall e | Held(c, s, e) :: Recorded(c, Text(s'.disk.file), e))
    ensures forall image | image in s'.disk.images ::
              || EventsIn(c, Text(image)) <= EventsIn(c, content)
              || forall e | Held(c, s, e) :: Recorded(c, Text(image), e)
  {
    LosingStepWritesNothing(c, s, l, s');
    hide Step, EventsIn, Recorded, UpToLastNewline, Good, Whole, LogText, QueueInv, CacheInv, DiskInv;
    var i :| 0 <= i < |s.ops| && s.ops[i].stage.Rewriting?;
    content := s.ops[i].stage.content;
    assert StageInv(c, s, s.ops[i].stage);
    PrefixesOfRecovered(c, s, s.ops[i].stage);
    forall e | Held(c, s, e)
      ensures HeldByRewrite(c, s.ops[i].stage, e)
    {
      assert s.ops[i].stage.Rewriting?;
    }
  }

  lemma PrefixesOfRecovered(c: Codec, s: State, stage: Stage)
    requires c.Valid() && stage.Rewriting? && StageInv(c, s, stage)
    ensures EventsIn(c, Text(s.disk.file)) <= EventsIn(c, stage.content)
    ensures forall image | image in s.disk.images ::
              image in stage.before || EventsIn(c, Text(image)) <= EventsIn(c, stage.content)
  {
    hide EventsIn, Good, Whole, UpToLastNewline, LogText;
    var clean := UpToLastNewline(stage.content);
    RecoveredLog(c, stage.content);
    CutGood(c, clean, Text(s.disk.file));
    forall image | image in s.disk.images && image !in stage.before
      ensures EventsIn(c, Text(image)) <= EventsIn(c, stage.content)
    {
      CutGood(c, clean, Text(image));
    }
  }

  // ----- Order -----

  /** Acknowledged events are held, their numbers strictly increase, and the append in progress will use a
      larger number than any of them. */
  ghost predicate AckInv(c: Codec, s: State) {
    && (forall e | e in s.acked :: Held(c, s, e))
    && (forall a, b | 0 <= a < b < |s.acked| :: s.acked[a].seqNo < s.acked[b].seqNo)
    && (forall i, e | 0 <= i < |s.ops| && InAppend(s.ops[i].stage) && e in s.acked ::
          e.seqNo < s.ops[i].stage.event.seqNo)
  }

  predicate InAppend(stage: Stage) {
    stage.Appending? || stage.RollingBack? || stage.Flushed?
  }

  lemma OpenAboveAcked(c: Codec, s: State, i: nat)
    requires c.Valid() && Inv(c, s) && i < |s.ops| && s.ops[i].stage.Numbered?
    requires forall e | e in s.acked :: Held(c, s, e)
    ensures forall e | e in s.acked :: e.seqNo < s.ops[i].stage.seqNo
  {
    hide Good, Whole, EventsIn, CacheInv, Codec.Valid;
    NoOtherRewrite(s, i);
    forall e | e in s.acked
      ensures e.seqNo < s.ops[i].stage.seqNo
    {
      assert Held(c, s, e);
      assert s.disk.file in s.disk.images;
      assert Recorded(c, Text(s.disk.file), e);
    }
  }

  lemma AckedUnchanged(c: Codec, s: State, s': State)
    requires AckInv(c, s) && s'.acked == s.acked
    requires forall e | e in s.acked :: Held(c, s', e)
    requires forall i | 0 <= i < |s'.ops| && InAppend(s'.ops[i].stage) ::
               || (forall e | e in s.acked :: e.seqNo < s'.ops[i].stage.event.seqNo)
               || (i < |s.ops| && InAppend(s.ops[i].stage) && s.ops[i].stage.event == s'.ops[i].stage.event)
    ensures AckInv(c, s')
  {
    hide Held;
  }

  /** A call's own step touches no other call, and only opening the append brings an event into one. */
  lemma OwnStepFrame(c: Codec, s: State, l: Label, s': State)
    requires Step(c, s, l, s') && !l.Called? && !l.Killed? && !l.PowerLost?
    ensures |s'.ops| == |s.ops| && forall j | 0 <= j < |s.ops| && j != l.i :: s'.ops[j] == s.ops[j]
    ensures l.i < |s.ops|
    ensures !l.AppendOpened? && InAppend(s'.ops[l.i].stage) ==>
              InAppend(s.ops[l.i].stage) && s.ops[l.i].stage.event == s'.ops[l.i].stage.event
  {
    hide LastSeq, UpToLastNewline, EndsWithNewline;
  }

  lemma MoveKeepsAckInv(c: Codec, s: State, l: Label, s': State)
    requires Step(c, s, l, s') && AckInv(c, s) && s'.acked == s.acked
    requires forall e | e in s.acked :: Held(c, s', e)
    requires l.AppendOpened? ==> l.i < |s.ops| && s.ops[l.i].stage.Numbered? &&
                                 forall e | e in s.acked :: e.seqNo < s.ops[l.i].stage.seqNo
    ensures AckInv(c, s')
  {
    hide Held, AckInv;
    if l.Called? {
      CallFrame(c, s, l, s');
    } else if l.Killed? || l.PowerLost? {
      assert s'.ops == [];
    } else {
      OwnStepFrame(c, s, l, s');
      if l.AppendOpened? {
        assert s'.ops[l.i].stage.event.seqNo == s.ops[l.i].stage.seqNo;
      }
      hide Step;
    }
    AckedUnchanged(c, s, s');
  }

  lemma CallFrame(c: Codec, s: State, l: Label, s': State)
    requires Step(c, s, l, s') && l.Called?
    ensures |s'.ops| == |s.ops| + 1 && s'.ops[|s.ops|].stage == Waiting
    ensures forall j | 0 <= j < |s.ops| :: s'.ops[j] == s.ops[j]
  {
  }

  lemma OneMoreAcked(c: Codec, s: State, acked: seq<Event>, e: Event)
    requires s.acked == acked + [e] && Held(c, s, e) && forall a | a in acked :: Held(c, s, a) && a.seqNo < e.seqNo
    requires forall a, b | 0 <= a < b < |acked| :: acked[a].seqNo < acked[b].seqNo
    requires forall j | 0 <= j < |s.ops| :: Quiet(s.ops[j].stage)
    ensures AckInv(c, s)
  {
    hide Held;
  }

  lemma AllQuietAfterSettling(s: State, i: nat, s': State)
    requires QueueInv(s) && i < |s.ops| && !Quiet(s.ops[i].stage)
    requires |s'.ops| == |s.ops| && s'.ops == s.ops[i := s'.ops[i]] && s'.ops[i].stage.Settled?
    ensures forall j | 0 <= j < |s'.ops| :: Quiet(s'.ops[j].stage)
  {
    OthersQuiet(s, i);
  }

  lemma AcknowledgeKeepsAckInv(c: Codec, s: State, i: nat, s': State)
    requires c.Valid() && Inv(c, s) && Step(c, s, AppendClosed(i, true), s') && AckInv(c, s)
    requires forall e | e in s.acked :: Held(c, s', e)
    ensures AckInv(c, s')
  {
    hide Held, DiskInv, StageInv, CacheInv, Codec.Valid;
    AcknowledgedIsHeld(c, s, i, s');
    AllQuietAfterSettling(s, i, s');
    hide QueueInv;
    OneMoreAcked(c, s', s.acked, s.ops[i].stage.event);
  }

  lemma AckedOnlyByClose(c: Codec, s: State, l: Label, s': State)
    requires Step(c, s, l, s') && !(l.AppendClosed? && l.ok)
    ensures s'.acked == s.acked
    ensures l.AppendOpened? ==> l.i < |s.ops| && s.ops[l.i].stage.Numbered?
  {
    hide LastSeq, UpToLastNewline;
  }

  lemma StepKeepsAckInv(c: Codec, s: State, l: Label, s': State)
    requires c.Valid() && Inv(c, s) && Step(c, s, l, s') && AckInv(c, s) && !LosingStep(s, l)
    ensures AckInv(c, s')
  {
    hide Held, Step, DiskInv, StageInv, CacheInv, LosingStep;
    forall e | e in s.acked ensures Held(c, s', e) {
      StepKeepsHeld(c, s, l, s', e);
    }
    if l.AppendClosed? && l.ok {
      AcknowledgeKeepsAckInv(c, s, l.i, s');
    } else {
      AckedOnlyByClose(c, s, l, s');
      if l.AppendOpened? {
        OpenAboveAcked(c, s, l.i);
      }
      MoveKeepsAckInv(c, s, l, s');
    }
  }

  /** Without a failure inside a recovery rewrite, acknowledged sequence numbers strictly increase over the whole
      run, across kills, power losses and restarts, and the log a reader sees outside a rewrite holds them all. */
  lemma {:induction false} AcknowledgedInOrder(c: Codec, states: seq<State>, labels: seq<Label>, k: nat)
    requires c.Valid() && Run(c, states, labels) && states[0] == Initial && k < |states|
    requires forall n | 0 <= n < k :: !LosingStep(states[n], labels[n])
    ensures AckInv(c, states[k])
  {
    hide Inv, Step, Held, LosingStep;
    if k > 0 {
      AcknowledgedInOrder(c, states, labels, k - 1);
      InitialInv(c);
      RunKeepsInv(c, states, labels, k - 1);
      assert Step(c, states[k - 1], labels[k - 1], states[k - 1 + 1]);
      StepKeepsAckInv(c, states[k - 1], labels[k - 1], states[k]);
    }
  }

  /** The events returned by the calls of one process, in call order. */
  function Resolutions(ops: seq<Op>): seq<Event> {
    if ops == [] then []
    else
      var last := ops[|ops| - 1].stage;
      Resolutions(ops[..|ops| - 1]) +
      (if last.Settled? && last.outcome.Resolved? then [last.outcome.event] else [])
  }

  /** Each event carries its own call's fields and redacted payload. */
  ghost predicate CallsMatch(s: State) {
    forall i | 0 <= i < |s.ops| :: StageMatches(s.ops[i].request, s.ops[i].stage)
  }

  predicate StageMatches(request: Request, stage: Stage) {
    match stage
    case Appending(e, _) => request.redacted.Ok? && e == EventFor(request, e.seqNo)
    case RollingBack(e, _) => request.redacted.Ok? && e == EventFor(request, e.seqNo)
    case Flushed(e, _) => request.redacted.Ok? && e == EventFor(request, e.seqNo)
    case Settled(Resolved(e)) => request.redacted.Ok? && e == EventFor(request, e.seqNo)
    case _ => true
  }

  lemma {:induction false} UnresolvedTail(ops: seq<Op>, n: nat)
    requires n <= |ops|
    requires forall i | n <= i < |ops| :: !(ops[i].stage.Settled? && ops[i].stage.outcome.Resolved?)
    ensures Resolutions(ops) == Resolutions(ops[..n])
    decreases |ops|
  {
    if n == |ops| {
      assert ops[..n] == ops;
    } else {
      var front := ops[..|ops| - 1];
      UnresolvedTail(front, n);
      assert front[..n] == ops[..n];
    }
  }

  /** The calls' part of the sequential log: what has been acknowledged since the process started is what its
      calls returned, in call order, each with its own fields. */
  ghost predicate OrderInv(s: State, base: seq<Event>) {
    s.acked == base + Resolutions(s.ops) && CallsMatch(s)
  }

  predicate Resolved(stage: Stage) {
    stage.Settled? && stage.outcome.Resolved?
  }

  /** Moving the only unsettled call adds its event exactly when it resolves. */
  lemma ResolveOne(ops: seq<Op>, i: nat, stage: Stage)
    requires i < |ops| && !ops[i].stage.Settled?
    requires forall j | i < j < |ops| :: ops[j].stage.Waiting?
    ensures Resolutions(ops[i := ops[i].(stage := stage)]) ==
            Resolutions(ops) + (if Resolved(stage) then [stage.outcome.event] else [])
  {
    var ops' := ops[i := ops[i].(stage := stage)];
    UnresolvedTail(ops, i);
    UnresolvedTail(ops', i + 1);
    assert ops'[..i + 1][..i] == ops[..i];
    assert Resolutions(ops) + [] == Resolutions(ops);
  }

  lemma MoveKeepsOrder(s: State, i: nat, stage: Stage, s': State, base: seq<Event>)
    requires QueueInv(s) && Moves(s, i, stage, s') && OrderInv(s, base)
    requires StageMatches(s.ops[i].request, stage)
    requires s'.acked == s.acked + if Resolved(stage) then [stage.outcome.event] else []
    ensures OrderInv(s', base)
  {
    ResolveOne(s.ops, i, stage);
    assert forall j | 0 <= j < |s.ops| && j != i :: s'.ops[j] == s.ops[j];
    assert s.acked + [] == s.acked;
  }

  /** Every step but a restart keeps the order. */
  lemma StepKeepsOrder(c: Codec, s: State, l: Label, s': State, base: seq<Event>)
    requires QueueInv(s) && Step(c, s, l, s') && OrderInv(s, base)
    requires !l.Killed? && !l.PowerLost?
    ensures OrderInv(s', base)
  {
    hide QueueInv, OrderInv, LastSeq, UpToLastNewline, EndsWithNewline;
    if l.Called? {
      CalledKeepsOrder(s, l.request, base);
    } else {
      var stage := s'.ops[l.i].stage;
      assert Moves(s, l.i, stage, s');
      OldStageMatches(s, l.i, base);
      MoveKeepsOrder(s, l.i, stage, s', base);
    }
  }

  lemma CalledKeepsOrder(s: State, request: Request, base: seq<Event>)
    requires OrderInv(s, base)
    ensures OrderInv(Enqueue(s, request), base)
  {
    assert Enqueue(s, request).ops[..|s.ops|] == s.ops;
  }

  lemma OldStageMatches(s: State, i: nat, base: seq<Event>)
    requires OrderInv(s, base) && i < |s.ops|
    ensures StageMatches(s.ops[i].request, s.ops[i].stage)
  {
  }

  /** From the start of a process to its end, whatever interleaving the concurrent calls had: the events
      acknowledged are those its calls returned, in call order, each with its own fields and its redacted
      payload; and at most one call is in progress, with every earlier one settled and every later one waiting. */
  lemma {:induction false} CallsAreSequential(c: Codec, states: seq<State>, labels: seq<Label>, k: nat)
    requires c.Valid() && Run(c, states, labels) && Inv(c, states[0]) && states[0].ops == [] && k < |states|
    requires forall n | 0 <= n < k :: !labels[n].Killed? && !labels[n].PowerLost?
    ensures OrderInv(states[k], states[0].acked)
    ensures forall i, j | 0 <= i < j < |states[k].ops| ::
              states[k].ops[i].stage.Settled? || states[k].ops[j].stage.Waiting?
  {
    hide Step, Resolutions, DiskInv, StageInv, CacheInv;
    RunKeepsInv(c, states, labels, k);
    if k == 0 {
      NoResolutions(states[0]);
    } else {
      CallsAreSequential(c, states, labels, k - 1);
      RunKeepsInv(c, states, labels, k - 1);
      assert Step(c, states[k - 1], labels[k - 1], states[k - 1 + 1]);
      StepKeepsOrder(c, states[k - 1], labels[k - 1], states[k], states[0].acked);
    }
  }

  lemma NoResolutions(s: State)
    requires s.ops == []
    ensures OrderInv(s, s.acked)
  {
    assert s.acked + [] == s.acked;
  }

  // ----- Progress and the cache -----

  /** How far a call is from settling when no file operation fails. */
  ghost function Distance(c: Codec, s: State, stage: Stage): nat {
    match stage
    case Waiting => 11
    case Reading => 10
    case Torn(_) => 9
    case Rewriting(content, _) => if s.disk.file == Some(UpToLastNewline(content)) then 7 else 8
    case Rewritten(_) => 6
    case Numbered(_) => 5
    case Appending(e, pre) => if s.disk.file == Some(pre + c.Line(e)) then 3 else 4
    case RollingBack(_, _) => 2
    case Flushed(_, _) => 1
    case Settled(_) => 0
  }

  /** The call is not bound to fail: its payload could be redacted, and it is not already rolling back. */
  predicate Healthy(request: Request, stage: Stage) {
    request.redacted.Ok? && !stage.RollingBack? && (stage.Settled? ==> stage.outcome.Resolved?)
  }

  /** Call `i` takes a step of its own towards settling; a healthy call stays healthy. */
  ghost predicate Advances(c: Codec, s: State, i: nat, l: Label, s': State) {
    && Step(c, s, l, s') && !l.Called? && !l.Killed? && !l.PowerLost? && l.i == i
    && |s'.ops| == |s.ops|
    && (forall j | 0 <= j < |s.ops| && j != i :: s'.ops[j] == s.ops[j])
    && i < |s.ops| && s'.ops[i].request == s.ops[i].request
    && Distance(c, s', s'.ops[i].stage) < Distance(c, s, s.ops[i].stage)
    && (Healthy(s.ops[i].request, s.ops[i].stage) ==> Healthy(s'.ops[i].request, s'.ops[i].stage))
  }

  lemma AdvanceReading(c: Codec, s: State, i: nat) returns (l: Label, s': State)
    requires c.Valid() && Inv(c, s) && i < |s.ops|
    requires s.ops[i].stage.Waiting? || s.ops[i].stage.Reading? || s.ops[i].stage.Rewritten?
    requires forall j | 0 <= j < i :: s.ops[j].stage.Settled?
    ensures Advances(c, s, i, l, s')
  {
    hide Good, Whole, EventsIn, LastSeq, UpToLastNewline, EndsWithNewline, CacheInv, Codec.Valid;
    match s.ops[i].stage
    case Waiting =>
      l, s' := Started(i), Begin(s, i);
    case Reading =>
      ReadGood(c, Text(s.disk.file));
      l, s' := ReadOk(i), ReadDone(c, s, i);
    case Rewritten(content) =>
      ReadGood(c, content);
      l, s' := RewriteClosed(i, true), s.Move(i, AfterRead(c, content));
  }

  lemma AdvanceRewrite(c: Codec, s: State, i: nat) returns (l: Label, s': State)
    requires c.Valid() && Inv(c, s) && i < |s.ops|
    requires s.ops[i].stage.Torn? || s.ops[i].stage.Rewriting?
    ensures Advances(c, s, i, l, s')
  {
    hide Good, Whole, EventsIn, UpToLastNewline, CacheInv, DiskInv, QueueInv, Codec.Valid;
    match s.ops[i].stage
    case Torn(content) =>
      l, s' := RewriteOpened(i), s.Move(i, Rewriting(content, s.disk.images)).(disk := s.disk.Write(""));
    case Rewriting(content, _) =>
      var clean := UpToLastNewline(content);
      if s.disk.file == Some(clean) {
        l, s' := RewriteSynced(i), s.Move(i, Rewritten(content)).(disk := s.disk.Synced());
      } else {
        NothingLeft(clean);
        l, s' := RewriteWrote(i, clean), s.(disk := s.disk.Write(clean));
      }
  }

  lemma AdvanceNumbered(c: Codec, s: State, i: nat) returns (l: Label, s': State)
    requires i < |s.ops| && s.ops[i].stage.Numbered?
    ensures Advances(c, s, i, l, s')
  {
    hide Codec.Valid;
    if s.ops[i].request.redacted.Ok? {
      l, s' := AppendOpened(i), OpenAppend(s, i);
    } else {
      l, s' := RedactFailed(i), Fail(s, i);
    }
  }

  lemma AdvanceWrite(c: Codec, s: State, i: nat) returns (l: Label, s': State)
    requires i < |s.ops| && s.ops[i].stage.Appending?
    ensures Advances(c, s, i, l, s')
  {
    hide Codec.Line;
    var event, pre := s.ops[i].stage.event, s.ops[i].stage.pre;
    var line := c.Line(event);
    if s.disk.file == Some(pre + line) {
      l, s' := AppendSynced(i), s.Move(i, Flushed(event, pre)).(disk := s.disk.Synced());
    } else {
      NothingLeft(line);
      l, s' := AppendWrote(i, line), s.(disk := s.disk.Write(pre + line));
    }
  }

  lemma AdvanceClose(c: Codec, s: State, i: nat) returns (l: Label, s': State)
    requires i < |s.ops| && (s.ops[i].stage.RollingBack? || s.ops[i].stage.Flushed?)
    requires s.ops[i].stage.RollingBack? ==> s.ops[i].stage.pre <= Text(s.disk.file)
    ensures Advances(c, s, i, l, s')
  {
    if s.ops[i].stage.Flushed? {
      l, s' := AppendClosed(i, true), Acknowledge(s, i);
    } else {
      var pre := s.ops[i].stage.pre;
      NothingLeft(Text(s.disk.file)[|pre|..]);
      l := RolledBack(i, "");
      s' := FailAppend(s, i).(disk := s.disk.Write(pre + ""));
    }
  }

  lemma Advance(c: Codec, s: State, i: nat) returns (l: Label, s': State)
    requires c.Valid() && Inv(c, s) && i < |s.ops| && !s.ops[i].stage.Settled?
    requires forall j | 0 <= j < i :: s.ops[j].stage.Settled?
    ensures Advances(c, s, i, l, s') && Inv(c, s')
  {
    hide Step, Distance, Healthy, Good, Whole, EventsIn, LastSeq, UpToLastNewline, QueueInv, DiskInv, CacheInv,
         Codec.Valid;
    match s.ops[i].stage {
      case Waiting => l, s' := AdvanceReading(c, s, i);
      case Reading => l, s' := AdvanceReading(c, s, i);
      case Rewritten(_) => l, s' := AdvanceReading(c, s, i);
      case Torn(_) => l, s' := AdvanceRewrite(c, s, i);
      case Rewriting(_, _) => l, s' := AdvanceRewrite(c, s, i);
      case Numbered(_) => l, s' := AdvanceNumbered(c, s, i);
      case Appending(_, _) => l, s' := AdvanceWrite(c, s, i);
      case RollingBack(_, _) => l, s' := AdvanceClose(c, s, i);
      case Flushed(_, _) => l, s' := AdvanceClose(c, s, i);
    }
    StepKeepsInv(c, s, l, s');
  }

  /** Whatever happened to the calls before it, the first unsettled call can always run to its settlement, and
      with no further fault a healthy one returns its event: a failed call never blocks later ones. */
  lemma {:induction false} NeverBlocked(c: Codec, s: State, i: nat) returns (states: seq<State>, labels: seq<Label>)
    requires c.Valid() && Inv(c, s) && i < |s.ops|
    requires forall j | 0 <= j < i :: s.ops[j].stage.Settled?
    ensures Run(c, states, labels) && states[0] == s
    ensures forall n | 0 <= n < |labels| ::
              !labels[n].Called? && !labels[n].Killed? && !labels[n].PowerLost? && labels[n].i == i
    ensures var last := states[|states| - 1];
      && |last.ops| == |s.ops| && last.ops[i].stage.Settled?
      && (Healthy(s.ops[i].request, s.ops[i].stage) ==> last.ops[i].stage.outcome.Resolved?)
    decreases Distance(c, s, s.ops[i].stage)
  {
    hide Step, Inv, Distance;
    if s.ops[i].stage.Settled? {
      states, labels := [s], [];
    } else {
      var l, s' := Advance(c, s, i);
      var rest, labels' := NeverBlocked(c, s', i);
      states, labels := [s] + rest, [l] + labels';
    }
  }

  /** Whenever no call is in progress, a cached number is the number of complete lines of a file that has no
      torn tail, so trusting it assigns the number a fresh read would. */
  lemma CacheIsExact(c: Codec, states: seq<State>, labels: seq<Label>, k: nat)
    requires c.Valid() && Run(c, states, labels) && states[0] == Initial && k < |states|
    requires states[k].cache.Some? && forall i | 0 <= i < |states[k].ops| :: Quiet(states[k].ops[i].stage)
    ensures var content := Text(states[k].disk.file);
      && (content == "" || EndsWithNewline(content))
      && |CompleteLines(content)| == states[k].cache.value
      && LastSeq(c, content) == states[k].cache
  {
    InitialInv(c);
    RunKeepsInv(c, states, labels, k);
    var content := Text(states[k].disk.file);
    RecoveredLog(c, content);
    CompleteLinesOfLog(c, content, EventsIn(c, content));
    ReadGood(c, content);
  }
}
