/** Where acknowledged events can be lost: inside the recovery rewrite, and nowhere else. */
module RecoveryWindow {
  import opened Wrappers
  import opened LogFormat
  import opened AppendProtocol
  import opened AppendGuarantees

  // ----- The exact condition -----

  /** "An event the log holds survives every step" fails exactly inside the rewrite: in any reachable state, some step
      can lose a held event if and only if a recovery rewrite is between its reopening and its completed fsync. */
  lemma LostExactlyInsideRewrite(c: Codec, states: seq<State>, labels: seq<Label>, k: nat, e: Event)
    requires c.Valid() && Run(c, states, labels) && states[0] == Initial && k < |states|
    requires Held(c, states[k], e)
    ensures (exists l, s' :: Step(c, states[k], l, s') && !Held(c, s', e)) <==> InsideRewrite(states[k])
  {
    hide Step, Held, EventsIn;
    InitialInv(c);
    RunKeepsInv(c, states, labels, k);
    var s := states[k];
    if InsideRewrite(s) {
      EmptyFileIsPossible(c, s);
      PowerLosesAll(c, s, e);
    } else {
      forall l, s' | Step(c, s, l, s')
        ensures Held(c, s', e)
      {
        NoLosingStep(c, s, l, s');
        StepKeepsHeld(c, s, l, s', e);
      }
    }
  }

  lemma NoLosingStep(c: Codec, s: State, l: Label, s': State)
    requires Step(c, s, l, s') && !InsideRewrite(s)
    ensures !LosingStep(s, l)
  {
  }

  lemma EmptyFileIsPossible(c: Codec, s: State)
    requires Inv(c, s) && InsideRewrite(s)
    ensures Some("") in s.disk.images
  {
    hide DiskInv, CacheInv;
    var i :| 0 <= i < |s.ops| && s.ops[i].stage.Rewriting?;
    assert StageInv(c, s, s.ops[i].stage);
  }

  lemma PowerLosesAll(c: Codec, s: State, e: Event)
    requires c.Valid() && Some("") in s.disk.images
    ensures Step(c, s, PowerLost(Some("")), PowerLoss(s, Some("")))
    ensures !Held(c, PowerLoss(s, Some("")), e)
  {
    hide EventsIn, Codec.Valid;
    EmptyLog(c);
    var s' := PowerLoss(s, Some(""));
    assert !InsideRewrite(s');
    assert Some("") in s'.disk.images && !Recorded(c, Text(Some("")), e);
  }

  // ----- A run that loses an acknowledged event -----

  lemma RunsJoin(c: Codec, states: seq<State>, labels: seq<Label>, more: seq<State>, labels': seq<Label>)
    requires Run(c, states, labels) && Run(c, more, labels') && states[|states| - 1] == more[0]
    ensures Run(c, states + more[1..], labels + labels')
  {
    hide Step;
    var all, ls := states + more[1..], labels + labels';
    forall k | 0 <= k < |ls|
      ensures Step(c, all[k], ls[k], all[k + 1])
    {
      if k < |labels| {
        assert Step(c, states[k], labels[k], states[k + 1]);
      } else {
        var n := k - |labels|;
        assert Step(c, more[n], labels'[n], more[n + 1]);
        assert all[k] == more[n] && all[k + 1] == more[n + 1];
      }
    }
  }

  /** One call so far, at the given stage. */
  function One(r: Request, stage: Stage): (seq<Op>, Option<nat>) {
    ([Op(None, r, stage)], Some(0))
  }

  function WithOne(disk: Disk, cache: Option<nat>, r: Request, stage: Stage, offered: set<Event>, acked: seq<Event>):
    State
  {
    State(disk, cache, One(r, stage).0, One(r, stage).1, offered, acked)
  }

  function WithTwo(disk: Disk, r: Request, first: Event, stage: Stage, offered: set<Event>): State {
    State(disk, Some(1), [Op(None, r, Settled(Resolved(first))), Op(Some(0), r, stage)], Some(1), offered, [first])
  }

  /** A first append is called, finds no file, and opens it. */
  lemma FirstOpens(c: Codec, r: Request) returns (states: seq<State>, labels: seq<Label>)
    requires c.Valid() && r.redacted.Ok?
    ensures Run(c, states, labels) && states[0] == Initial && |labels| == 4
    ensures states[4] == WithOne(Disk(Some(""), {None, Some("")}), None, r, Appending(EventFor(r, 1), ""),
                                 {EventFor(r, 1)}, [])
  {
    EmptyReadsZero(c);
    hide LastSeq, Codec.Valid, Codec.Line, CutOf;
    var e := EventFor(r, 1);
    var none := Disk(None, {None});
    var s1 := WithOne(none, None, r, Waiting, {}, []);
    var s2 := WithOne(none, None, r, Reading, {}, []);
    var s3 := WithOne(none, None, r, Numbered(1), {}, []);
    var s4 := WithOne(Disk(Some(""), {None, Some("")}), None, r, Appending(e, ""), {e}, []);
    assert Step(c, Initial, Called(r), s1);
    assert Step(c, s1, Started(0), s2);
    assert Step(c, s2, ReadOk(0), s3);
    assert Step(c, s3, AppendOpened(0), s4);
    hide Step;
    states := [Initial, s1, s2, s3, s4];
    labels := [Called(r), Started(0), ReadOk(0), AppendOpened(0)];
  }

  /** It writes its line, syncs and closes. */
  lemma FirstWrites(c: Codec, r: Request, s0: State) returns (states: seq<State>, labels: seq<Label>)
    requires r.redacted.Ok?
    requires s0 == WithOne(Disk(Some(""), {None, Some("")}), None, r, Appending(EventFor(r, 1), ""),
                           {EventFor(r, 1)}, [])
    ensures Run(c, states, labels) && states[0] == s0 && |labels| == 3 && labels[2] == AppendClosed(0, true)
    ensures var e, line := EventFor(r, 1), Some(c.Line(EventFor(r, 1)));
      states[3] == WithOne(Disk(line, {line}), Some(1), r, Settled(Resolved(e)), {e}, [e])
  {
    var e := EventFor(r, 1);
    var line := c.Line(e);
    NothingLeft(line);
    hide Codec.Line, CutOf;
    assert "" + line == line;
    var full := s0.disk.Write(line);
    var s1 := WithOne(full, None, r, Appending(e, ""), {e}, []);
    var s2 := WithOne(full.Synced(), None, r, Flushed(e, ""), {e}, []);
    var s3 := WithOne(full.Synced(), Some(1), r, Settled(Resolved(e)), {e}, [e]);
    assert Step(c, s0, AppendWrote(0, line), s1);
    assert Step(c, s1, AppendSynced(0), s2);
    assert Step(c, s2, AppendClosed(0, true), s3);
    hide Step;
    states := [s0, s1, s2, s3];
    labels := [AppendWrote(0, line), AppendSynced(0), AppendClosed(0, true)];
  }

  lemma EmptyReadsZero(c: Codec)
    requires c.Valid()
    ensures LastSeq(c, "") == Some(0)
  {
    EmptyLog(c);
    ReadGood(c, "");
  }

  /** A second append of the same process is called and opens the file. */
  lemma SecondOpens(c: Codec, r: Request, s0: State) returns (states: seq<State>, labels: seq<Label>)
    requires r.redacted.Ok?
    requires var e, line := EventFor(r, 1), Some(c.Line(EventFor(r, 1)));
      s0 == WithOne(Disk(line, {line}), Some(1), r, Settled(Resolved(e)), {e}, [e])
    ensures Run(c, states, labels) && states[0] == s0 && |labels| == 3
    ensures states[3] == WithTwo(s0.disk, r, EventFor(r, 1), Appending(EventFor(r, 2), c.Line(EventFor(r, 1))),
                                 {EventFor(r, 1), EventFor(r, 2)})
  {
    hide Codec.Line;
    var e1, e2 := EventFor(r, 1), EventFor(r, 2);
    var s1 := WithTwo(s0.disk, r, e1, Waiting, {e1});
    var s2 := WithTwo(s0.disk, r, e1, Numbered(2), {e1});
    var s3 := WithTwo(s0.disk, r, e1, Appending(e2, c.Line(e1)), {e1, e2});
    assert s0.disk.Write(c.Line(e1)) == s0.disk;
    assert Step(c, s0, Called(r), s1);
    assert Step(c, s1, Started(1), s2);
    assert Step(c, s2, AppendOpened(1), s3);
    hide Step;
    states := [s0, s1, s2, s3];
    labels := [Called(r), Started(1), AppendOpened(1)];
  }

  /** The process is killed after the first character of its line. */
  lemma SecondTorn(c: Codec, r: Request, s0: State) returns (states: seq<State>, labels: seq<Label>)
    requires c.Valid() && r.redacted.Ok? && s0.disk.file == Some(c.Line(EventFor(r, 1)))
    requires s0 == WithTwo(s0.disk, r, EventFor(r, 1), Appending(EventFor(r, 2), c.Line(EventFor(r, 1))),
                           {EventFor(r, 1), EventFor(r, 2)})
    ensures Run(c, states, labels) && states[0] == s0 && |labels| == 2
    ensures var torn := states[2];
      && torn.cache == None && torn.ops == [] && torn.tail == None && torn.acked == [EventFor(r, 1)]
      && torn.disk.file.Some? && torn.disk.file.value != "" && !EndsWithNewline(torn.disk.file.value)
  {
    var e1, e2 := EventFor(r, 1), EventFor(r, 2);
    var l1, l2 := c.Line(e1), c.Line(e2);
    var cut := l2[..1] + "";
    CutAt(l2, 1, "");
    assert cut == [c.encode(e2)[0]];
    hide Codec.Valid, Codec.Line, CutOf;
    var part := s0.disk.Write(l1 + cut);
    var s1 := WithTwo(part, r, e1, Appending(e2, l1), {e1, e2});
    var torn := State(part, None, [], None, {e1, e2}, [e1]);
    assert Step(c, s0, AppendWrote(1, cut), s1);
    assert Step(c, s1, Killed, torn);
    hide Step;
    states := [s0, s1, torn];
    labels := [AppendWrote(1, cut), Killed];
  }

  /** The next process starts the recovery rewrite, and the power fails. */
  lemma PowerFailsInRewrite(c: Codec, r: Request, torn: State) returns (states: seq<State>, labels: seq<Label>)
    requires torn.cache == None && torn.ops == [] && torn.tail == None && torn.disk.file.Some?
    requires torn.disk.file.value != "" && !EndsWithNewline(torn.disk.file.value)
    ensures Run(c, states, labels) && |labels| == 5 && states[0] == torn
    ensures InsideRewrite(states[4]) && labels[4] == PowerLost(Some(""))
    ensures states[5].disk.file == Some("") && states[5].acked == torn.acked
  {
    var content := torn.disk.file.value;
    var s1 := WithOne(torn.disk, None, r, Waiting, torn.offered, torn.acked);
    var s2 := WithOne(torn.disk, None, r, Reading, torn.offered, torn.acked);
    var s3 := WithOne(torn.disk, None, r, Torn(content), torn.offered, torn.acked);
    var s4 := WithOne(torn.disk.Write(""), None, r, Rewriting(content, torn.disk.images), torn.offered, torn.acked);
    var s5 := PowerLoss(s4, Some(""));
    assert Step(c, torn, Called(r), s1);
    assert Step(c, s1, Started(0), s2);
    assert Step(c, s2, ReadOk(0), s3);
    assert Step(c, s3, RewriteOpened(0), s4);
    assert Step(c, s4, PowerLost(Some("")), s5);
    assert s4.ops[0].stage.Rewriting?;
    hide Step;
    states := [torn, s1, s2, s3, s4, s5];
    labels := [Called(r), Started(0), ReadOk(0), RewriteOpened(0), PowerLost(Some(""))];
  }

  /** The whole run: an append is acknowledged, a second one is torn by a kill, the next process reopens the file to
      recover it, and the power fails. The acknowledged event is gone. */
  lemma AcknowledgedEventLost(c: Codec, r: Request) returns (states: seq<State>, labels: seq<Label>)
    requires c.Valid() && r.redacted.Ok?
    ensures Run(c, states, labels) && states[0] == Initial && |labels| == 17
    ensures labels[6] == AppendClosed(0, true) && states[7].acked == [EventFor(r, 1)]
    ensures InsideRewrite(states[16]) && labels[16] == PowerLost(Some(""))
    ensures states[17].acked == [EventFor(r, 1)]
    ensures !Recorded(c, Text(states[17].disk.file), EventFor(r, 1))
  {
    hide Run, EventsIn, Codec.Line, Codec.Valid, InsideRewrite, EndsWithNewline;
    var s1, l1 := FirstOpens(c, r);
    Lengths(c, s1, l1);
    var s2, l2 := FirstWrites(c, r, s1[4]);
    Lengths(c, s2, l2);
    RunsJoin(c, s1, l1, s2, l2);
    var s3, l3 := SecondOpens(c, r, s2[3]);
    Lengths(c, s3, l3);
    RunsJoin(c, s1 + s2[1..], l1 + l2, s3, l3);
    var s4, l4 := SecondTorn(c, r, s3[3]);
    Lengths(c, s4, l4);
    RunsJoin(c, s1 + s2[1..] + s3[1..], l1 + l2 + l3, s4, l4);
    var s5, l5 := PowerFailsInRewrite(c, r, s4[2]);
    Lengths(c, s5, l5);
    RunsJoin(c, s1 + s2[1..] + s3[1..] + s4[1..], l1 + l2 + l3 + l4, s5, l5);
    states, labels := s1 + s2[1..] + s3[1..] + s4[1..] + s5[1..], l1 + l2 + l3 + l4 + l5;
    EmptyLog(c);
  }

  lemma Lengths(c: Codec, states: seq<State>, labels: seq<Label>)
    requires Run(c, states, labels)
    ensures |states| == |labels| + 1
  {
  }
}
