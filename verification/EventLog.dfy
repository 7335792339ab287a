/** `events.ts` as it is written: one run's log file, its entry in `lastSeqCache`, and the operations the promise
    chain runs one after another. Every file operation may fail. The ghost fields record the states the run goes
    through, and every method is proved to take only steps of the append protocol: what is proved there of all
    states holds at every moment of these methods, and a kill or a power loss may interrupt them anywhere. */
module EventLog {
  import opened Wrappers
  import opened LogFormat
  import opened AppendProtocol
  import AppendGuarantees
  import Redact

  /** The arguments of one `appendEvent`. */
  datatype Call = Call(meta: Meta, heap: Redact.Heap, payload: Redact.Value, policy: Redact.Policy)
  {
    ghost predicate WellFormed() {
      Redact.Closed(heap) && Redact.ValueIn(heap, payload)
    }

    ghost function AsRequest(): Request
      requires WellFormed()
    {
      Request(meta, Redact.RedactPayload(heap, policy, payload))
    }
  }

  /** Which file operations of one `appendEvent` fail, if it gets to them: reading the log; reopening, writing, syncing
      or closing it to recover a torn tail; opening it to append (with making its directory, its size and the
      serialiser), writing the line, syncing it, truncating it away again, and closing. How far a failing write gets is
      not said. */
  datatype Faults = Faults(
    read: bool, reopen: bool, rewrite: bool, rewriteSync: bool, rewriteClose: bool,
    open: bool, write: bool, sync: bool, truncate: bool, close: bool)
  {
    predicate Recovery() {
      reopen || rewrite || rewriteSync || rewriteClose
    }

    predicate Append() {
      open || write || sync || close
    }
  }

  class RunLog {
    const codec: Codec

    var file: Option<string>
    var cache: Option<nat>
    var calls: seq<Call>
    var settled: nat

    ghost var states: seq<State>
    ghost var labels: seq<Label>

    ghost function Now(): State
      reads `states, `labels
      requires |states| >= 1
    {
      states[|states| - 1]
    }

    /** The recorded states are a run of the protocol. */
    ghost predicate Recorded()
      reads `states, `labels
    {
      && codec.Valid()
      && Run(codec, states, labels)
      && states[0] == Initial
      && Inv(codec, Now())
    }

    /** The real fields are those of the recorded state. */
    ghost predicate InStep()
      reads this
    {
      && |states| >= 1 && Recorded()
      && Now().disk.file == file
      && Now().cache == cache
    }

    /** Between operations: calls before `settled` have settled, the others wait in order. */
    ghost predicate Valid()
      reads this
    {
      && InStep()
      && settled <= |calls| == |Now().ops|
      && (forall k | 0 <= k < |calls| :: calls[k].WellFormed() && Now().ops[k].request == calls[k].AsRequest())
      && (forall k | 0 <= k < settled :: Now().ops[k].stage.Settled?)
      && (forall k | settled <= k < |calls| :: Now().ops[k].stage.Waiting?)
    }

    constructor (codec: Codec)
      requires codec.Valid()
      ensures Valid() && this.codec == codec && calls == [] && file == None && fresh(this)
    {
      this.codec := codec;
      file, cache, calls, settled := None, None, [], 0;
      states, labels := [Initial], [];
      new;
      InitialInv(codec);
    }

    /** A step of call `i` itself: neither another call's nor a kill or power loss. */
    static predicate OwnStep(l: Label, i: nat) {
      !l.Called? && !l.Killed? && !l.PowerLost? && l.i == i
    }

    /** Since the given history only call `i` has moved. */
    ghost predicate OnlyMoved(states0: seq<State>, labels0: seq<Label>, i: nat)
      reads `states, `labels
    {
      && 1 <= |states0| <= |states| && states0 <= states && labels0 <= labels
      && (forall n | |labels0| <= n < |labels| :: OwnStep(labels[n], i))
      && var ops0 := states0[|states0| - 1].ops;
         && i < |ops0| == |Now().ops|
         && Now().ops[i].request == ops0[i].request
         && forall j | 0 <= j < |ops0| && j != i :: Now().ops[j] == ops0[j]
    }

    /** Records one step of the protocol. */
    ghost method Record(l: Label, s': State)
      requires Recorded() && Step(codec, Now(), l, s')
      modifies this`states, this`labels
      ensures Recorded() && Now() == s'
      ensures states == old(states) + [s'] && labels == old(labels) + [l]
    {
      hide Step, Inv, Run;
      NonEmptyRun(codec, states, labels);
      StepKeepsInv(codec, Now(), l, s');
      AppendGuarantees.RunExtends(codec, states, labels, l, s');
      states, labels := states + [s'], labels + [l];
    }

    /** Records a step of call `i` itself, on top of a history since which only `i` has moved. */
    ghost method Take(i: nat, l: Label, s': State, states0: seq<State>, labels0: seq<Label>)
      requires Recorded() && OnlyMoved(states0, labels0, i)
      requires Step(codec, Now(), l, s') && OwnStep(l, i)
      requires i < |Now().ops| && exists stage :: s'.ops == Now().ops[i := Now().ops[i].(stage := stage)]
      modifies this`states, this`labels
      ensures Recorded() && |states| >= 1 && Now() == s' && OnlyMoved(states0, labels0, i)
    {
      hide Step, Inv, Run;
      Record(l, s');
    }

    ghost predicate Working(i: nat)
      reads this
    {
      InStep() && i < |Now().ops|
    }

    ghost function StageOf(i: nat): Stage
      reads `states, `labels
      requires |states| >= 1 && i < |Now().ops|
    {
      Now().ops[i].stage
    }

    ghost function Logged(): seq<Event>
      reads `file
    {
      EventsIn(codec, Text(file))
    }

    predicate HasTornTail()
      reads this
    {
      Text(file) != "" && !EndsWithNewline(Text(file))
    }

    /** What the invariant says of the call in progress. */
    lemma Known(i: nat)
      requires Working(i) && !Quiet(StageOf(i))
      ensures codec.Valid() && StageInv(codec, Now(), StageOf(i)) && Good(codec, Text(file))
    {
    }

    /** Writes the complete lines of a torn file back, in as many partial writes as the system makes of it. */
    method TruncateTornTrailingWrite(ghost i: nat, content: string, f: Faults,
                                     ghost states0: seq<State>, ghost labels0: seq<Label>) returns (ok: bool)
      requires Working(i) && file == Some(content) && OnlyMoved(states0, labels0, i)
      requires content != "" && !EndsWithNewline(content) ==> StageOf(i) == Torn(content)
      modifies this`file, this`states, this`labels
      ensures Working(i) && OnlyMoved(states0, labels0, i)
      ensures ok <==> content == "" || EndsWithNewline(content) ||
                      !(f.reopen || f.rewrite || f.rewriteSync || f.rewriteClose)
      ensures content == "" || EndsWithNewline(content) ==> file == old(file) && Now() == old(Now())
      ensures content != "" && !EndsWithNewline(content) && ok ==>
        file == Some(UpToLastNewline(content)) && StageOf(i) == AfterRead(codec, content)
      ensures !ok ==> StageOf(i) == Settled(Rejected) && Logged() <= EventsIn(codec, content)
    {
      hide Recorded, OnlyMoved, EventsIn, LastSeq, UpToLastNewline;
      if content == "" || EndsWithNewline(content) {
        return true;
      }
      var cleanContent := UpToLastNewline(content);
      if f.reopen {
        Take(i, RewriteRefused(i), Fail(Now(), i), states0, labels0);
        return false;
      }
      file := Some("");
      ghost var rewriting := Rewriting(content, Now().disk.images);
      Take(i, RewriteOpened(i), Now().Move(i, rewriting).(disk := Now().disk.Write("")), states0, labels0);
      ok := WriteBack(i, content, cleanContent, f, states0, labels0);
      if !ok {
        return false;
      }
      RecordRewriteClosed(i, content, !f.rewriteClose, states0, labels0);
      return !f.rewriteClose;
    }

    ghost method RecordRewriteClosed(i: nat, content: string, ok: bool, states0: seq<State>, labels0: seq<Label>)
      requires Working(i) && StageOf(i) == Rewritten(content) && OnlyMoved(states0, labels0, i)
      modifies this`states, this`labels
      ensures Working(i) && OnlyMoved(states0, labels0, i)
      ensures StageOf(i) == if ok then AfterRead(codec, content) else Settled(Rejected)
      ensures !ok ==> Logged() <= EventsIn(codec, content)
    {
      hide Recorded, OnlyMoved, EventsIn, LastSeq, UpToLastNewline;
      if ok {
        Take(i, RewriteClosed(i, true), Now().Move(i, AfterRead(codec, content)), states0, labels0);
      } else {
        RecoveredKeepsPrefix(i, content);
        Take(i, RewriteClosed(i, false), Fail(Now(), i), states0, labels0);
      }
    }

    /** The body of the reopened file: the partial writes, then the fsync. */
    method WriteBack(ghost i: nat, content: string, cleanContent: string, f: Faults,
                     ghost states0: seq<State>, ghost labels0: seq<Label>) returns (ok: bool)
      requires Working(i) && StageOf(i).Rewriting? && StageOf(i).content == content
      requires cleanContent == UpToLastNewline(content) && file == Some("") && OnlyMoved(states0, labels0, i)
      modifies this`file, this`states, this`labels
      ensures Working(i) && OnlyMoved(states0, labels0, i)
      ensures ok <==> !f.rewrite && !f.rewriteSync
      ensures ok ==> StageOf(i) == Rewritten(content) && file == Some(cleanContent)
      ensures !ok ==> StageOf(i) == Settled(Rejected) && Logged() <= EventsIn(codec, content)
    {
      hide Recorded, OnlyMoved, EventsIn, UpToLastNewline;
      ghost var rewriting := StageOf(i);
      var written, remnant := 0, "";
      assert cleanContent[..0] + "" == "";
      while written < |cleanContent|
        invariant written <= |cleanContent| && (written == |cleanContent| ==> remnant == "")
        invariant Working(i) && OnlyMoved(states0, labels0, i)
        invariant StageOf(i) == rewriting && file == Some(cleanContent[..written] + remnant)
      {
        var early: bool := *;
        if f.rewrite && early {
          FailRewrite(i, content, states0, labels0);
          return false;
        }
        written, remnant := MoreWritten(written, |cleanContent|);
        CutAt(cleanContent, written, remnant);
        ghost var cut := cleanContent[..written] + remnant;
        file := Some(cleanContent[..written] + remnant);
        ghost var now := Now();
        assert now.ops == now.ops[i := now.ops[i].(stage := rewriting)];
        Take(i, RewriteWrote(i, cut), now.(disk := now.disk.Write(cut)), states0, labels0);
      }
      assert cleanContent[..written] + remnant == cleanContent;
      if f.rewrite || f.rewriteSync {
        FailRewrite(i, content, states0, labels0);
        return false;
      }
      Take(i, RewriteSynced(i), Now().Move(i, Rewritten(content)).(disk := Now().disk.Synced()), states0, labels0);
      return true;
    }

    /** A write or the fsync of the rewrite fails. */
    ghost method FailRewrite(i: nat, content: string, states0: seq<State>, labels0: seq<Label>)
      requires Working(i) && StageOf(i).Rewriting? && StageOf(i).content == content
      requires OnlyMoved(states0, labels0, i)
      modifies this`states, this`labels
      ensures Working(i) && StageOf(i) == Settled(Rejected) && Logged() <= EventsIn(codec, content)
      ensures OnlyMoved(states0, labels0, i)
    {
      hide Recorded, OnlyMoved, EventsIn;
      RewriteKeepsPrefix(i, content);
      Take(i, RewriteFailed(i), Fail(Now(), i), states0, labels0);
    }

    lemma RewriteKeepsPrefix(i: nat, content: string)
      requires Working(i) && StageOf(i).Rewriting? && StageOf(i).content == content
      ensures Logged() <= EventsIn(codec, content)
    {
      AppendGuarantees.PrefixesOfRecovered(codec, Now(), StageOf(i));
    }

    lemma RecoveredKeepsPrefix(i: nat, content: string)
      requires Working(i) && StageOf(i) == Rewritten(content)
      ensures Logged() == EventsIn(codec, content)
    {
      Known(i);
      RecoveredLog(codec, content);
    }

    /** The last number used, from the cache or from the file, which is recovered on the way if it is torn. */
    method DetermineLastSeq(ghost i: nat, f: Faults, ghost states0: seq<State>, ghost labels0: seq<Label>)
      returns (lastSeq: Option<nat>)
      requires OnlyMoved(states0, labels0, i)
      requires Working(i) && StageOf(i) == if cache.Some? then Numbered(cache.value + 1) else Reading
      modifies this`file, this`states, this`labels
      ensures Working(i) && OnlyMoved(states0, labels0, i)
      ensures lastSeq.Some? <==>
        old(cache).Some? || (!f.read && (old(HasTornTail()) ==> !f.Recovery()))
      ensures lastSeq.Some? ==> StageOf(i) == Numbered(lastSeq.value + 1) && Logged() == old(Logged())
      ensures lastSeq.None? ==> StageOf(i) == Settled(Rejected)
      ensures lastSeq.None? ==>
        Logged() == old(Logged()) || (old(HasTornTail()) && f.Recovery() && Logged() <= old(Logged()))
    {
      hide Recorded, OnlyMoved, EventsIn, LastSeq, UpToLastNewline, Good;
      if cache.Some? {
        return cache;
      }
      Known(i);
      if f.read {
        Take(i, ReadFailed(i), Fail(Now(), i), states0, labels0);
        return None;
      }
      LastSeqOfGood(codec, Text(file));
      ghost var afterRead := ReadDone(codec, Now(), i);
      assert afterRead.ops == Now().ops[i := Now().ops[i].(stage := afterRead.ops[i].stage)];
      Take(i, ReadOk(i), afterRead, states0, labels0);
      if file.None? {
        return Some(0);
      }
      var content := file.value;
      var recovered := TruncateTornTrailingWrite(i, content, f, states0, labels0);
      if !recovered {
        return None;
      }
      RecoveredSameEvents(codec, content);
      lastSeq := LastSeq(codec, content);
    }

    /** Writes the line, fsyncs it, and on a failure truncates back as far as the system lets it. The caller
        then updates the cached number. */
    method AppendLineWithFsync(ghost i: nat, ghost event: Event, line: string, f: Faults,
                               ghost states0: seq<State>, ghost labels0: seq<Label>) returns (ok: bool)
      requires OnlyMoved(states0, labels0, i)
      requires Working(i) && StageOf(i) == Numbered(event.seqNo) && Now().ops[i].request.redacted.Ok?
      requires event == EventFor(Now().ops[i].request, event.seqNo) && line == codec.Line(event)
      modifies this`file, this`states, this`labels
      ensures Recorded() && |states| >= 1 && OnlyMoved(states0, labels0, i) && i < |Now().ops|
      ensures Now().disk.file == file
      ensures ok <==> !f.open && !f.write && !f.sync && !f.close
      ensures ok ==> && StageOf(i) == Settled(Resolved(event)) && Now().cache == Some(event.seqNo)
                     && Logged() == old(Logged()) + [event] && Now().disk.images == {file}
      ensures !ok ==> && StageOf(i) == Settled(Rejected) && Now().cache == None
                      && (Logged() == old(Logged()) || Logged() == old(Logged()) + [event])
      ensures f.open || ((f.write || f.sync) && !f.truncate) ==> Text(file) == old(Text(file))
      ensures !f.open && !f.write && !f.sync ==> Logged() == old(Logged()) + [event]
    {
      hide Recorded, OnlyMoved, EventsIn, Good, Whole, Codec.Line, Step;
      Known(i);
      var pre := Text(file);
      if f.open {
        var created: bool := *;
        RecordRefused(i, created, pre, states0, labels0);
        file := if created then Some(pre) else file;
        return false;
      }
      OpenKeepsInStep(i, event);
      file := Some(pre);
      Take(i, AppendOpened(i), OpenAppend(Now(), i), states0, labels0);
      ok := WriteAndSync(i, event, pre, line, f, states0, labels0);
      NothingLeft(line);
      assert (pre + line)[|pre|..] == line;
      LineAddsAtMostOne(codec, pre, event, file.value);
      if ok {
        ok := !f.close;
        RecordClosed(i, ok, states0, labels0);
      } else {
        RollBack(i, event, pre, f, states0, labels0);
      }
    }

    ghost method RecordRefused(i: nat, created: bool, pre: string, states0: seq<State>, labels0: seq<Label>)
      requires Working(i) && StageOf(i).Numbered? && Now().ops[i].request.redacted.Ok?
      requires OnlyMoved(states0, labels0, i) && pre == Text(file)
      modifies this`states, this`labels
      ensures Recorded() && |states| >= 1 && OnlyMoved(states0, labels0, i) && i < |Now().ops|
      ensures StageOf(i) == Settled(Rejected) && Now().cache == None
      ensures Now().disk.file == if created then Some(pre) else file
    {
      hide Recorded, OnlyMoved;
      var refused := if created then FailAppend(Now(), i).(disk := Now().disk.Write(pre)) else FailAppend(Now(), i);
      assert refused.ops == Now().ops[i := Now().ops[i].(stage := Settled(Rejected))];
      Take(i, AppendRefused(i, created), refused, states0, labels0);
    }

    lemma OpenKeepsInStep(i: nat, event: Event)
      requires Working(i) && StageOf(i) == Numbered(event.seqNo) && Now().ops[i].request.redacted.Ok?
      requires event == EventFor(Now().ops[i].request, event.seqNo)
      ensures Step(codec, Now(), AppendOpened(i), OpenAppend(Now(), i))
      ensures OpenAppend(Now(), i).ops ==
              Now().ops[i := Now().ops[i].(stage := Appending(event, Text(file)))]
    {
      hide Recorded;
    }

    ghost method RecordClosed(i: nat, ok: bool, states0: seq<State>, labels0: seq<Label>)
      requires Working(i) && StageOf(i).Flushed? && OnlyMoved(states0, labels0, i)
      modifies this`states, this`labels
      ensures Recorded() && |states| >= 1 && OnlyMoved(states0, labels0, i) && i < |Now().ops|
      ensures Now().disk == old(Now().disk)
      ensures ok ==> StageOf(i) == Settled(Resolved(old(StageOf(i)).event)) &&
                     Now().cache == Some(old(StageOf(i)).event.seqNo)
      ensures !ok ==> StageOf(i) == Settled(Rejected) && Now().cache == None
    {
      hide Recorded, OnlyMoved;
      var closed := if ok then Acknowledge(Now(), i) else FailAppend(Now(), i);
      assert closed.ops == Now().ops[i := Now().ops[i].(stage := closed.ops[i].stage)];
      Take(i, AppendClosed(i, ok), closed, states0, labels0);
    }

    /** The best-effort truncate: it may succeed, fail, or stop part way. */
    method RollBack(ghost i: nat, ghost event: Event, pre: string, f: Faults,
                    ghost states0: seq<State>, ghost labels0: seq<Label>)
      requires Working(i) && StageOf(i) == RollingBack(event, pre) && OnlyMoved(states0, labels0, i)
      requires codec.Valid() && Whole(codec, pre) && event.seqNo == |EventsIn(codec, pre)| + 1
      requires file.Some? && pre <= file.value && CutOf(codec.Line(event), file.value[|pre|..])
      modifies this`file, this`states, this`labels
      ensures Recorded() && |states| >= 1 && OnlyMoved(states0, labels0, i) && i < |Now().ops|
      ensures Now().disk.file == file && StageOf(i) == Settled(Rejected) && Now().cache == None
      ensures Logged() == EventsIn(codec, pre) || Logged() == EventsIn(codec, pre) + [event]
      ensures !f.truncate ==> file == Some(pre)
    {
      hide Recorded, OnlyMoved, EventsIn, Good, Whole, Codec.Line, Codec.Valid;
      var cut := Truncated(file.value[|pre|..], f.truncate);
      CutOfCut(codec.Line(event), file.value[|pre|..], cut);
      assert (pre + cut)[|pre|..] == cut && (cut == "" ==> pre + cut == pre);
      LineAddsAtMostOne(codec, pre, event, pre + cut);
      ghost var rolling := Now();
      file := Some(pre + cut);
      Take(i, RolledBack(i, cut), FailAppend(rolling, i).(disk := rolling.disk.Write(pre + cut)), states0, labels0);
    }

    /** The partial writes of the line, then the fsync; on failure the file holds part of the line. */
    method WriteAndSync(ghost i: nat, ghost event: Event, pre: string, line: string, f: Faults,
                        ghost states0: seq<State>, ghost labels0: seq<Label>) returns (ok: bool)
      requires Working(i) && StageOf(i) == Appending(event, pre) && line == codec.Line(event) && file == Some(pre)
      requires OnlyMoved(states0, labels0, i)
      modifies this`file, this`states, this`labels
      ensures Working(i) && OnlyMoved(states0, labels0, i) && Now().cache == cache
      ensures ok <==> !f.write && !f.sync
      ensures ok ==> && StageOf(i) == Flushed(event, pre) && file == Some(pre + line)
                     && Now().disk.images == {file}
      ensures !ok ==> && StageOf(i) == RollingBack(event, pre) && file.Some?
                      && pre <= file.value && CutOf(line, file.value[|pre|..])
    {
      hide Recorded, OnlyMoved, Codec.Line, CutOf;
      var written, remnant := 0, "";
      assert pre + (line[..0] + "") == pre;
      while written < |line|
        invariant written <= |line| && (written == |line| ==> remnant == "")
        invariant '\n' !in remnant
        invariant Working(i) && OnlyMoved(states0, labels0, i)
        invariant StageOf(i) == Appending(event, pre) && file == Some(pre + (line[..written] + remnant))
      {
        CutAt(line, written, remnant);
        assert (pre + (line[..written] + remnant))[|pre|..] == line[..written] + remnant;
        var early: bool := *;
        if f.write && early {
          Take(i, AppendFailed(i), Now().Move(i, RollingBack(event, pre)), states0, labels0);
          return false;
        }
        written, remnant := WriteMore(i, event, pre, line, written, states0, labels0);
      }
      assert line[..written] + remnant == line;
      NothingLeft(line);
      assert (pre + line)[|pre|..] == line;
      ok := !f.write && !f.sync;
      if ok {
        Take(i, AppendSynced(i), Now().Move(i, Flushed(event, pre)).(disk := Now().disk.Synced()), states0, labels0);
      } else {
        Take(i, AppendFailed(i), Now().Move(i, RollingBack(event, pre)), states0, labels0);
      }
    }

    method WriteMore(ghost i: nat, ghost event: Event, pre: string, line: string, written: nat,
                     ghost states0: seq<State>, ghost labels0: seq<Label>) returns (upTo: nat, remnant: string)
      requires Working(i) && StageOf(i) == Appending(event, pre) && line == codec.Line(event) && written < |line|
      requires OnlyMoved(states0, labels0, i)
      modifies this`file, this`states, this`labels
      ensures Working(i) && OnlyMoved(states0, labels0, i) && Now().cache == cache
      ensures written < upTo <= |line| && '\n' !in remnant && (upTo == |line| ==> remnant == "")
      ensures StageOf(i) == Appending(event, pre) && file == Some(pre + (line[..upTo] + remnant))
    {
      hide Recorded, OnlyMoved, Codec.Line, CutOf;
      upTo, remnant := MoreWritten(written, |line|);
      CutAt(line, upTo, remnant);
      ghost var cut := line[..upTo] + remnant;
      ghost var now := Now();
      assert now.ops == now.ops[i := now.ops[i].(stage := Appending(event, pre))];
      file := Some(pre + (line[..upTo] + remnant));
      Take(i, AppendWrote(i, cut), now.(disk := now.disk.Write(pre + cut)), states0, labels0);
    }

    /** `enqueueForRun`: the call waits behind every call made before it. */
    method EnqueueForRun(call: Call)
      requires Valid() && call.WellFormed()
      modifies this`calls, this`states, this`labels
      ensures Valid() && calls == old(calls) + [call]
      ensures states == old(states) + [Enqueue(old(Now()), call.AsRequest())]
    {
      hide Run, Inv;
      ghost var before := Now();
      Record(Called(call.AsRequest()), Enqueue(before, call.AsRequest()));
      calls := calls + [call];
      assert forall k | 0 <= k < |before.ops| :: Now().ops[k] == before.ops[k];
    }

    /** The call whose turn it is may start, and no other call has moved yet. */
    lemma NextMayStart()
      requires Valid() && settled < |calls|
      ensures Working(settled) && Startable(Now(), settled) && OnlyMoved(states, labels, settled)
      ensures Now().ops[settled].request == calls[settled].AsRequest()
    {
      hide Run, DiskInv, StageInv, CacheInv;
    }

    lemma ValidAgain(states0: seq<State>, labels0: seq<Label>)
      requires InStep() && 1 <= |states0| && settled < |calls| && OnlyMoved(states0, labels0, settled)
      requires StageOf(settled).Settled?
      requires var ops0 := states0[|states0| - 1].ops;
        && |ops0| == |calls|
        && (forall k | 0 <= k < |calls| :: calls[k].WellFormed() && ops0[k].request == calls[k].AsRequest())
        && (forall k | 0 <= k < settled :: ops0[k].stage.Settled?)
        && (forall k | settled < k < |calls| :: ops0[k].stage.Waiting?)
      ensures |calls| == |Now().ops|
      ensures forall k | 0 <= k < |calls| :: Now().ops[k].request == calls[k].AsRequest()
      ensures forall k | 0 <= k <= settled :: Now().ops[k].stage.Settled?
      ensures forall k | settled < k < |calls| :: Now().ops[k].stage.Waiting?
    {
      hide Recorded;
    }

    /** `appendEvent`'s operation, run when every earlier call has settled. It returns its event exactly when its
        payload can be redacted and none of the file operations it needs fails; the event is then the last line of the
        file and the only thing a power loss could leave there. A rejected call leaves the log as it was, or with its
        own complete but unacknowledged line if the truncate or the close failed, or, if recovering a torn file failed,
        with a prefix. Whatever happens, the next call finds a valid log. */
    method RunNext(f: Faults) returns (outcome: Outcome)
      requires Valid() && settled < |calls|
      modifies this`file, this`cache, this`settled, this`states, this`labels
      ensures Valid() && settled == old(settled) + 1
      ensures OnlyMoved(old(states), old(labels), old(settled))
      ensures StageOf(old(settled)) == Settled(outcome)
      ensures outcome.Resolved? <==>
        && (old(cache).None? ==> !f.read)
        && (old(cache).None? && old(HasTornTail()) ==>
              !f.reopen && !f.rewrite && !f.rewriteSync && !f.rewriteClose)
        && Redact.RedactPayload(calls[old(settled)].heap, calls[old(settled)].policy, calls[old(settled)].payload).Ok?
        && !f.open && !f.write && !f.sync && !f.close
      ensures outcome.Resolved? ==>
        && Redact.RedactPayload(calls[old(settled)].heap, calls[old(settled)].policy, calls[old(settled)].payload) ==
           Ok(outcome.event.payload)
        && outcome.event.meta == calls[old(settled)].meta
        && outcome.event.seqNo == |old(Logged())| + 1
        && Logged() == old(Logged()) + [outcome.event]
        && Now().disk.images == {file}
        && cache == Some(outcome.event.seqNo)
      ensures outcome.Rejected? ==>
        || Logged() == old(Logged())
        || (old(HasTornTail()) && (f.reopen || f.rewrite || f.rewriteSync || f.rewriteClose) &&
            Logged() <= old(Logged()))
        || ((f.truncate || f.close) &&
            exists e: Event :: e.seqNo == |old(Logged())| + 1 && e.meta == calls[old(settled)].meta &&
              Redact.RedactPayload(calls[old(settled)].heap, calls[old(settled)].policy,
                                   calls[old(settled)].payload) == Ok(e.payload) &&
              Logged() == old(Logged()) + [e])
    {
      hide Recorded, OnlyMoved, EventsIn, Good, Whole, Codec.Line, Codec.Valid;
      ghost var i := settled;
      NextMayStart();
      ghost var states0, labels0 := states, labels;
      ghost var begun := Begin(Now(), i);
      assert begun.ops == Now().ops[i := Now().ops[i].(stage := begun.ops[i].stage)];
      Take(i, Started(i), begun, states0, labels0);
      var call := calls[settled];
      outcome := RunOperation(i, call, f, states0, labels0);
      ValidAgain(states0, labels0);
      settled := settled + 1;
    }

    /** Call `i` of the given history was made with these arguments. */
    ghost predicate Requested(states0: seq<State>, i: nat, call: Call) {
      && call.WellFormed() && |states0| >= 1 && i < |states0[|states0| - 1].ops|
      && states0[|states0| - 1].ops[i].request == call.AsRequest()
    }

    lemma SameRequest(states0: seq<State>, labels0: seq<Label>, i: nat, call: Call)
      requires OnlyMoved(states0, labels0, i) && Requested(states0, i, call)
      ensures |states| >= 1 && i < |Now().ops| && Now().ops[i].request == call.AsRequest()
    {
    }

    ghost method RecordRedactFailed(i: nat, states0: seq<State>, labels0: seq<Label>)
      requires Working(i) && StageOf(i).Numbered? && Now().ops[i].request.redacted.Err?
      requires OnlyMoved(states0, labels0, i)
      modifies this`states, this`labels
      ensures Working(i) && OnlyMoved(states0, labels0, i) && StageOf(i) == Settled(Rejected)
    {
      hide Recorded, OnlyMoved;
      Take(i, RedactFailed(i), Fail(Now(), i), states0, labels0);
    }

    method RunOperation(ghost i: nat, call: Call, f: Faults, ghost states0: seq<State>, ghost labels0: seq<Label>)
      returns (outcome: Outcome)
      requires Working(i) && OnlyMoved(states0, labels0, i) && call.WellFormed()
      requires Requested(states0, i, call)
      requires StageOf(i) == if cache.Some? then Numbered(cache.value + 1) else Reading
      modifies this`file, this`cache, this`states, this`labels
      ensures Working(i) && OnlyMoved(states0, labels0, i) && StageOf(i) == Settled(outcome)
      ensures outcome.Resolved? <==>
        && (old(cache).Some? || (!f.read && (old(HasTornTail()) ==> !f.Recovery())))
        && call.AsRequest().redacted.Ok? && !f.Append()
      ensures outcome.Resolved? ==>
        && call.AsRequest().redacted == Ok(outcome.event.payload) && outcome.event.meta == call.meta
        && outcome.event.seqNo == |old(Logged())| + 1 && Logged() == old(Logged()) + [outcome.event]
        && Now().disk.images == {file} && cache == Some(outcome.event.seqNo)
      ensures outcome.Rejected? ==>
        || Logged() == old(Logged())
        || (old(HasTornTail()) && f.Recovery() && Logged() <= old(Logged()))
        || ((f.truncate || f.close) &&
            exists e: Event :: e.seqNo == |old(Logged())| + 1 && e.meta == call.meta &&
              call.AsRequest().redacted == Ok(e.payload) && Logged() == old(Logged()) + [e])
    {
      hide Recorded, OnlyMoved, EventsIn, Good, Whole, Codec.Line, Codec.Valid, Step;
      var lastSeq := DetermineLastSeq(i, f, states0, labels0);
      if lastSeq.None? {
        return Rejected;
      }
      var seqNo := lastSeq.value + 1;
      Known(i);
      SameRequest(states0, labels0, i, call);
      var redacted := Redact.RedactValue(call.heap, call.policy, call.payload, {});
      if redacted.Err? {
        RecordRedactFailed(i, states0, labels0);
        return Rejected;
      }
      var event := Event(seqNo, call.meta, redacted.value);
      var line := codec.encode(event) + "\n";
      assert line == codec.Line(event) by { WholeLine(codec, event); }
      var ok := AppendLineWithFsync(i, event, line, f, states0, labels0);
      if !ok {
        cache := None;
        return Rejected;
      }
      cache := Some(seqNo);
      return Resolved(event);
    }

    /** `readEvents`, at any point between operations: the whole log, numbered 1..n, and never an error. */
    method ReadBack() returns (events: seq<Event>, error: Option<ReadError>)
      requires Valid()
      ensures error == None && Gapless(events) && events == Logged()
    {
      ReadGood(codec, Text(file));
      if file.None? {
        return [], None;
      }
      events, error := ReadEvents(codec, file.value);
    }
  }

  /** How much of a text of this length the system has written after one more write: more of its characters, and unless
      that is all, possibly part of the next one. */
  method MoreWritten(written: nat, length: nat) returns (upTo: nat, remnant: string)
    requires written < length
    ensures written < upTo <= length && '\n' !in remnant && (upTo == length ==> remnant == "")
  {
    upTo :| written < upTo <= length;
    remnant := "";
    if upTo < length {
      remnant := *;
      if '\n' in remnant {
        remnant := "";
      }
    }
  }

  /** What a truncate leaves of the text after the offset it cuts back to: nothing, unless it fails. */
  method Truncated(text: string, fails: bool) returns (cut: string)
    ensures CutOf(text, cut) && (!fails ==> cut == "")
  {
    NothingLeft(text);
    var kept, remnant := 0, "";
    if text != "" {
      kept, remnant := MoreWritten(0, |text|);
      CutAt(text, kept, remnant);
    }
    return if fails then text[..kept] + remnant else "";
  }

  lemma NonEmptyRun(c: Codec, states: seq<State>, labels: seq<Label>)
    requires Run(c, states, labels)
    ensures |states| >= 1
  {
  }

  lemma WholeLine(c: Codec, e: Event)
    ensures c.encode(e) + "\n" == c.Line(e)
  {
  }

  lemma RecoveredSameEvents(c: Codec, content: string)
    requires c.Valid() && Good(c, content)
    ensures EventsIn(c, UpToLastNewline(content)) == EventsIn(c, content)
  {
    RecoveredLog(c, content);
  }

  /** Part of a line adds no event, the whole line adds exactly its own. */
  lemma LineAddsAtMostOne(c: Codec, pre: string, e: Event, content: string)
    requires c.Valid() && Whole(c, pre) && e.seqNo == |EventsIn(c, pre)| + 1
    requires pre <= content && CutOf(c.Line(e), content[|pre|..])
    ensures EventsIn(c, content) == EventsIn(c, pre) || EventsIn(c, content) == EventsIn(c, pre) + [e]
    ensures content == pre + c.Line(e) ==> EventsIn(c, content) == EventsIn(c, pre) + [e]
  {
    hide Whole, EventsIn, Good, Codec.Line, Codec.Valid, CutOf;
    assert content == pre + content[|pre|..];
    ExtendedLog(c, pre, e, content[|pre|..]);
    assert EventsIn(c, pre) + [] == EventsIn(c, pre);
  }

  lemma LastSeqOfGood(c: Codec, content: string)
    requires c.Valid() && Good(c, content)
    ensures LastSeq(c, content) == Some(|EventsIn(c, content)|)
    ensures LastSeq(c, "") == Some(0)
  {
    ReadGood(c, content);
  }
}
