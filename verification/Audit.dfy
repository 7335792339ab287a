/** The consolidated audit query: the matching events of every run that can be read, and of the readable part of every
    run that cannot, in one order. */
module Audit {
  import opened Wrappers
  import opened Ordering
  import opened LogFormat

  datatype Category =
    | GateDecision | CeilingEscalation | PolicyViolation | BlockedInjection | RedactedSecret
    | DestructiveConfirmation | McpCall | ArtifactWrite

  const CATEGORIES := [
    GateDecision, CeilingEscalation, PolicyViolation, BlockedInjection, RedactedSecret, DestructiveConfirmation,
    McpCall, ArtifactWrite]

  /** The event types reported under each category; no event type reports the two unproduced ones. */
  function TypesOf(category: Category): seq<string> {
    match category
    case GateDecision => ["GateEvaluated", "GateApproved", "GateRejected", "GateWaived"]
    case CeilingEscalation => ["EscalationActive"]
    case PolicyViolation => ["PolicyViolation"]
    case BlockedInjection => ["InjectionAttemptBlocked"]
    case RedactedSecret => ["SecretRedacted"]
    case DestructiveConfirmation => []
    case McpCall => []
    case ArtifactWrite => ["ArtifactCreated", "ArtifactUpdated"]
  }

  /** The reverse of the table, among the categories from the k-th on. */
  function CategoryFrom(kind: string, k: nat): Option<Category>
    requires k <= |CATEGORIES|
    decreases |CATEGORIES| - k
  {
    if k == |CATEGORIES| then None
    else if kind in TypesOf(CATEGORIES[k]) then Some(CATEGORIES[k])
    else CategoryFrom(kind, k + 1)
  }

  /** The category of an event type, if it has one. */
  function CategoryOf(kind: string): Option<Category> {
    CategoryFrom(kind, 0)
  }

  lemma {:induction false} CategoryFromExactly(kind: string, k: nat)
    requires k <= |CATEGORIES|
    ensures match CategoryFrom(kind, k)
      case Some(category) => kind in TypesOf(category)
      case None => forall j | k <= j < |CATEGORIES| :: kind !in TypesOf(CATEGORIES[j])
    decreases |CATEGORIES| - k
  {
    hide TypesOf;
    if k < |CATEGORIES| && kind !in TypesOf(CATEGORIES[k]) {
      CategoryFromExactly(kind, k + 1);
    }
  }

  /** No event type is listed under two categories, so an event has a category exactly when that one lists its type. */
  lemma CategoryExactly(kind: string, category: Category)
    ensures CategoryOf(kind) == Some(category) <==> kind in TypesOf(category)
  {
    CategoryFromExactly(kind, 0);
    OneCategory(kind);
    Listed(category);
  }

  lemma OneCategory(kind: string)
    ensures forall c, d: Category | kind in TypesOf(c) && kind in TypesOf(d) :: c == d
  {
  }

  lemma Listed(category: Category)
    ensures exists j :: 0 <= j < |CATEGORIES| && CATEGORIES[j] == category
  {
    assert CATEGORIES[0] == GateDecision && CATEGORIES[1] == CeilingEscalation && CATEGORIES[2] == PolicyViolation;
    assert CATEGORIES[3] == BlockedInjection && CATEGORIES[4] == RedactedSecret;
    assert CATEGORIES[5] == DestructiveConfirmation && CATEGORIES[6] == McpCall && CATEGORIES[7] == ArtifactWrite;
  }

  /** What a run's directory holds. */
  datatype LogFile = Absent | Unreadable | Content(text: string)

  /** A query: `millis` is what Date makes of a timestamp, None standing for NaN; an undefined category list asks for
      every category, an empty one for none. */
  datatype Query = Query(millis: string -> Option<int>, since: Option<int>, categories: Option<set<Category>>)
  {
    /** `tsMs < sinceMs` is false of an unparseable timestamp, which counts as +Infinity. */
    predicate Matches(e: Event) {
      && CategoryOf(e.meta.kind).Some?
      && (categories.Some? ==> CategoryOf(e.meta.kind).value in categories.value)
      && !(since.Some? && millis(e.meta.ts).Some? && millis(e.meta.ts).value < since.value)
    }
  }

  // ----- The sort comparator, in JavaScript numbers -----

  datatype Number = Finite(n: int) | PlusInfinity | MinusInfinity | NaN

  /** `tsToComparableMs` */
  function Comparable(q: Query, ts: string): Number {
    match q.millis(ts)
    case Some(ms) => Finite(ms)
    case None => PlusInfinity
  }

  function Minus(a: Number, b: Number): Number {
    match (a, b)
    case (Finite(x), Finite(y)) => Finite(x - y)
    case (NaN, _) => NaN
    case (_, NaN) => NaN
    case (PlusInfinity, PlusInfinity) => NaN
    case (MinusInfinity, MinusInfinity) => NaN
    case (PlusInfinity, _) => PlusInfinity
    case (MinusInfinity, _) => MinusInfinity
    case (_, PlusInfinity) => MinusInfinity
    case (_, MinusInfinity) => PlusInfinity
  }

  /** The comparator as written: NaN differs from 0, so two malformed times return NaN without a tie-break. */
  function Compare(q: Query, a: Event, b: Event): Number {
    var tsDiff := Minus(Comparable(q, a.meta.ts), Comparable(q, b.meta.ts));
    if tsDiff != Finite(0) then tsDiff
    else if Below(a.meta.runId, b.meta.runId) then Finite(-1)
    else if Below(b.meta.runId, a.meta.runId) then Finite(1)
    else Finite(a.seqNo - b.seqNo)
  }

  /** The sign the sort acts on; section 23.1.3.30 of ECMA-262 reads NaN as 0. */
  function Sign(v: Number): int {
    match v
    case NaN => 0
    case PlusInfinity => 1
    case MinusInfinity => -1
    case Finite(n) => if n < 0 then -1 else if n > 0 then 1 else 0
  }

  function Order(q: Query, a: Event, b: Event): int {
    Sign(Compare(q, a, b))
  }

  /** The tie-break by run id and sequence number. */
  function RunOrder(a: Event, b: Event): int {
    if Below(a.meta.runId, b.meta.runId) then -1
    else if Below(b.meta.runId, a.meta.runId) then 1
    else Sign(Finite(a.seqNo - b.seqNo))
  }

  lemma RunOrderConsistent(a: Event, b: Event, c: Event)
    ensures RunOrder(a, a) == 0
    ensures RunOrder(a, b) == -RunOrder(b, a)
    ensures RunOrder(a, b) <= 0 && RunOrder(b, c) <= 0 ==> RunOrder(a, c) <= 0
    ensures RunOrder(a, b) < 0 && RunOrder(b, c) <= 0 ==> RunOrder(a, c) < 0
    ensures RunOrder(a, b) <= 0 && RunOrder(b, c) < 0 ==> RunOrder(a, c) < 0
  {
    hide Below;
    var x, y, z := a.meta.runId, b.meta.runId, c.meta.runId;
    BelowTotal(x, y);
    BelowTotal(y, z);
    BelowTotal(x, z);
    if Below(x, y) && Below(y, z) {
      BelowTransitive(x, y, z);
    }
    if Below(z, y) && Below(y, x) {
      BelowTransitive(z, y, x);
    }
  }

  /** The sign of the comparison by cases on the two times: the tie-break is reached only by equal finite ones. */
  lemma OrderByTimes(q: Query, a: Event, b: Event)
    ensures Order(q, a, b) ==
      match (q.millis(a.meta.ts), q.millis(b.meta.ts))
      case (Some(x), Some(y)) => if x < y then -1 else if x > y then 1 else RunOrder(a, b)
      case (Some(_), None) => -1
      case (None, Some(_)) => 1
      case (None, None) => 0
  {
    hide Below;
  }

  /** The comparator is consistent, as the sort requires of it, NaN notwithstanding. */
  lemma ComparatorConsistent(q: Query, a: Event, b: Event, c: Event)
    ensures Order(q, a, a) == 0
    ensures Order(q, a, b) == -Order(q, b, a)
    ensures Order(q, a, b) <= 0 && Order(q, b, c) <= 0 ==> Order(q, a, c) <= 0
    ensures Order(q, a, b) < 0 && Order(q, b, c) <= 0 ==> Order(q, a, c) < 0
  {
    hide Order, RunOrder;
    RunOrderConsistent(a, b, c);
    OrderByTimes(q, a, a);
    OrderByTimes(q, a, b);
    OrderByTimes(q, b, a);
    OrderByTimes(q, b, c);
    OrderByTimes(q, a, c);
  }

  // ----- The order of a report -----

  /** Earlier by run id, then sequence number. */
  predicate EarlierInRuns(a: Event, b: Event) {
    Below(a.meta.runId, b.meta.runId) || (a.meta.runId == b.meta.runId && a.seqNo < b.seqNo)
  }

  /** Earlier by (time, run id, sequence number), a malformed time being later than every other. */
  predicate Earlier(q: Query, a: Event, b: Event) {
    match (q.millis(a.meta.ts), q.millis(b.meta.ts))
    case (Some(x), Some(y)) => x < y || (x == y && EarlierInRuns(a, b))
    case (Some(_), None) => true
    case (None, Some(_)) => false
    case (None, None) => EarlierInRuns(a, b)
  }

  ghost predicate InOrder(q: Query, es: seq<Event>) {
    forall i, j | 0 <= i < j < |es| :: Earlier(q, es[i], es[j])
  }

  ghost predicate InRunOrder(es: seq<Event>) {
    forall i, j | 0 <= i < j < |es| :: EarlierInRuns(es[i], es[j])
  }

  /** What a stable sort promises: a rearrangement, ascending, in which equal elements keep their order. */
  ghost predicate StablySorted(q: Query, input: seq<Event>, output: seq<Event>, from: seq<nat>) {
    && |output| == |input| == |from|
    && (forall i | 0 <= i < |from| :: from[i] < |input| && output[i] == input[from[i]])
    && (forall i, j | 0 <= i < j < |from| :: from[i] != from[j])
    && (forall i, j | 0 <= i < j < |output| :: Order(q, output[i], output[j]) <= 0)
    && (forall i, j | 0 <= i < j < |output| && Order(q, output[i], output[j]) == 0 :: from[i] < from[j])
  }

  /** Whatever stable sort is used, a list gathered run by run comes out ordered by (time, run id, seq), malformed times
      last: where two of them compare as NaN, stability keeps the gathered order, which is the same tie-break. */
  lemma SortedReportInOrder(q: Query, input: seq<Event>, output: seq<Event>, from: seq<nat>)
    requires InRunOrder(input) && StablySorted(q, input, output, from)
    ensures InOrder(q, output)
  {
    forall i, j | 0 <= i < j < |output|
      ensures Earlier(q, output[i], output[j])
    {
      var a, b := output[i], output[j];
      assert Order(q, a, b) <= 0;
      BelowTotal(a.meta.runId, b.meta.runId);
      if from[i] < from[j] {
        assert EarlierInRuns(input[from[i]], input[from[j]]);
      } else {
        assert EarlierInRuns(input[from[j]], input[from[i]]);
      }
    }
  }

  lemma EarlierStrict(q: Query, a: Event, b: Event)
    ensures !(Earlier(q, a, b) && Earlier(q, b, a))
  {
    BelowTotal(a.meta.runId, b.meta.runId);
  }

  /** A report is determined by the events in it, so it does not depend on how the engine sorts. */
  lemma {:induction false} ReportUnique(q: Query, a: seq<Event>, b: seq<Event>)
    requires InOrder(q, a) && InOrder(q, b) && forall e :: e in a <==> e in b
    ensures a == b
  {
    if a == [] {
      assert forall i | 0 <= i < |b| :: b[i] in b;
    } else {
      assert a[0] in b && b[0] in a;
      var i :| 0 <= i < |a| && a[i] == b[0];
      var j :| 0 <= j < |b| && b[j] == a[0];
      EarlierStrict(q, a[0], b[0]);
      assert a[0] == b[0];
      forall e ensures e in a[1..] <==> e in b[1..] {
        EarlierStrict(q, e, e);
        assert e in a && e != a[0] ==> e in a[1..];
        assert e in b && e != b[0] ==> e in b[1..];
      }
      ReportUnique(q, a[1..], b[1..]);
      assert a == [a[0]] + a[1..] && b == [b[0]] + b[1..];
    }
  }

  // ----- Gathering -----

  /** `assertSafeRunId` */
  predicate SafeRunId(runId: string) {
    runId !in ["", ".", ".."] && '/' !in runId && '\\' !in runId
  }

  datatype RunRead = RunRead(events: seq<Event>, failed: bool)

  /** What iterating `readEvents` on one run gives: the events before any failure, and whether it failed. */
  function ReadRun(c: Codec, runId: string, file: LogFile): RunRead {
    if !SafeRunId(runId) then RunRead([], true)
    else
      match file
      case Absent => RunRead([], false)
      case Unreadable => RunRead([], true)
      case Content(text) => RunRead(ReadAll(c, text).events, ReadAll(c, text).error.Some?)
  }

  function Matching(q: Query, es: seq<Event>): seq<Event> {
    if es == [] then []
    else Matching(q, es[..|es| - 1]) + (if q.Matches(es[|es| - 1]) then [es[|es| - 1]] else [])
  }

  /** The entries pushed while going through the runs in this order. */
  function Gathered(c: Codec, q: Query, logs: map<string, LogFile>, runIds: seq<string>): seq<Event>
    requires forall r | r in runIds :: r in logs
  {
    if runIds == [] then []
    else
      var last := runIds[|runIds| - 1];
      Gathered(c, q, logs, runIds[..|runIds| - 1]) + Matching(q, ReadRun(c, last, logs[last]).events)
  }

  function Failing(c: Codec, logs: map<string, LogFile>, runIds: seq<string>): seq<string>
    requires forall r | r in runIds :: r in logs
  {
    if runIds == [] then []
    else
      var last := runIds[|runIds| - 1];
      Failing(c, logs, runIds[..|runIds| - 1]) + (if ReadRun(c, last, logs[last]).failed then [last] else [])
  }

  lemma {:induction false} MatchingElements(q: Query, es: seq<Event>)
    ensures forall e :: e in Matching(q, es) <==> e in es && q.Matches(e)
  {
    if es != [] {
      MatchingElements(q, es[..|es| - 1]);
      assert es == es[..|es| - 1] + [es[|es| - 1]];
    }
  }

  lemma {:induction false} GatheredElements(c: Codec, q: Query, logs: map<string, LogFile>, runIds: seq<string>)
    requires forall r | r in runIds :: r in logs
    ensures forall e :: e in Gathered(c, q, logs, runIds) <==>
              q.Matches(e) && exists r :: r in runIds && e in ReadRun(c, r, logs[r]).events
  {
    hide ReadRun;
    if runIds != [] {
      var front, last := runIds[..|runIds| - 1], runIds[|runIds| - 1];
      assert runIds == front + [last];
      GatheredElements(c, q, logs, front);
      MatchingElements(q, ReadRun(c, last, logs[last]).events);
    }
  }

  // ----- The gathered list is in run order -----

  ghost predicate NumberedFrom(es: seq<Event>, n: nat) {
    forall i | 0 <= i < |es| :: es[i].seqNo == n + i
  }

  lemma {:induction false} ReadNumbers(c: Codec, lines: seq<string>, expected: nat)
    ensures NumberedFrom(ReadLines(c, lines, expected).events, expected)
  {
    if lines != [] && c.parse(lines[0]).Some? && c.parse(lines[0]).value.seqNo == expected {
      ReadNumbers(c, lines[1..], expected + 1);
      NumberedCons(c.parse(lines[0]).value, ReadLines(c, lines[1..], expected + 1).events);
    }
  }

  lemma NumberedCons(e: Event, rest: seq<Event>)
    ensures NumberedFrom(rest, e.seqNo + 1) ==> NumberedFrom([e] + rest, e.seqNo)
  {
  }

  lemma {:induction false} MatchingIncreasing(q: Query, es: seq<Event>)
    requires forall i, j | 0 <= i < j < |es| :: es[i].seqNo < es[j].seqNo
    ensures forall i, j | 0 <= i < j < |Matching(q, es)| :: Matching(q, es)[i].seqNo < Matching(q, es)[j].seqNo
  {
    if es != [] {
      var front := es[..|es| - 1];
      MatchingIncreasing(q, front);
      MatchingElements(q, front);
      assert forall i | 0 <= i < |Matching(q, front)| :: Matching(q, front)[i] in front;
    }
  }

  /** Each log holds events of its own run. */
  ghost predicate OwnEvents(c: Codec, logs: map<string, LogFile>) {
    forall r, e | r in logs && e in ReadRun(c, r, logs[r]).events :: e.meta.runId == r
  }

  lemma RunInOrder(c: Codec, q: Query, logs: map<string, LogFile>, r: string)
    requires r in logs && OwnEvents(c, logs)
    ensures var es := Matching(q, ReadRun(c, r, logs[r]).events);
      InRunOrder(es) && forall e | e in es :: e.meta.runId == r
  {
    var es := ReadRun(c, r, logs[r]).events;
    if SafeRunId(r) && logs[r].Content? {
      ReadNumbers(c, CompleteLines(logs[r].text), 1);
    }
    assert NumberedFrom(es, 1);
    MatchingElements(q, es);
    MatchingIncreasing(q, es);
    var m := Matching(q, es);
    assert forall i | 0 <= i < |m| :: m[i] in m;
  }

  lemma {:induction false} GatheredInRunOrder(c: Codec, q: Query, logs: map<string, LogFile>, runIds: seq<string>)
    requires Ascending(runIds) && OwnEvents(c, logs) && forall r | r in runIds :: r in logs
    ensures InRunOrder(Gathered(c, q, logs, runIds))
    ensures forall e | e in Gathered(c, q, logs, runIds) :: e.meta.runId in runIds
  {
    hide ReadRun, Below;
    if runIds != [] {
      var front, last := runIds[..|runIds| - 1], runIds[|runIds| - 1];
      GatheredInRunOrder(c, q, logs, front);
      RunInOrder(c, q, logs, last);
      var a, b := Gathered(c, q, logs, front), Matching(q, ReadRun(c, last, logs[last]).events);
      forall i, j | 0 <= i < |a| && 0 <= j < |b|
        ensures EarlierInRuns(a[i], b[j])
      {
        assert a[i] in a && b[j] in b;
        var k :| 0 <= k < |front| && front[k] == a[i].meta.runId;
        assert Below(runIds[k], runIds[|runIds| - 1]);
      }
    }
  }

  // ----- queryAuditEvents -----

  /** A stable sort by the comparator. */
  method Sort(q: Query, input: seq<Event>) returns (output: seq<Event>)
    ensures exists from :: StablySorted(q, input, output, from)
  {
    hide Order, StablySorted;
    output := [];
    ghost var from: seq<nat> := [];
    NothingSorted(q);
    for k := 0 to |input|
      invariant StablySorted(q, input[..k], output, from) && |output| == |from| == k
    {
      var e := input[k];
      var i := |output|;
      while i > 0 && Order(q, output[i - 1], e) > 0
        invariant 0 <= i <= |output|
        invariant forall j | i <= j < |output| :: Order(q, output[j], e) > 0
      {
        i := i - 1;
      }
      InsertKeepsSorted(q, input[..k], output, from, e, i);
      assert input[..k + 1] == input[..k] + [e];
      output := output[..i] + [e] + output[i..];
      from := from[..i] + [k] + from[i..];
    }
    assert input[..|input|] == input;
  }

  ghost function Inserted<T>(s: seq<T>, i: nat, x: T): (r: seq<T>)
    requires i <= |s|
    ensures |r| == |s| + 1 && r[i] == x
    ensures forall k | 0 <= k < i :: r[k] == s[k]
    ensures forall k | i < k < |r| :: r[k] == s[k - 1]
  {
    s[..i] + [x] + s[i..]
  }

  /** Where an element of the longer list stood before the insertion. */
  function Before(i: nat, k: nat): nat
    requires k != i
  {
    if k < i then k else k - 1
  }

  lemma NothingSorted(q: Query)
    ensures StablySorted(q, [], [], [])
  {
  }

  lemma InsertKeepsSorted(q: Query, input: seq<Event>, output: seq<Event>, from: seq<nat>, e: Event, i: nat)
    requires StablySorted(q, input, output, from) && i <= |output| == |input| == |from|
    requires i > 0 ==> Order(q, output[i - 1], e) <= 0
    requires forall j | i <= j < |output| :: Order(q, output[j], e) > 0
    ensures StablySorted(q, input + [e], output[..i] + [e] + output[i..], from[..i] + [|input|] + from[i..])
  {
    hide Order, StablySorted;
    var output', from' := Inserted(output, i, e), Inserted(from, i, |input|);
    assert output' == output[..i] + [e] + output[i..] && from' == from[..i] + [|input|] + from[i..];
    InsertedComparisons(q, input, output, from, e, i);
    InsertedPositions(q, input, output, from, e, i);
    InsertedOrder(q, input, output, from, e, i);
    StablySortedFrom(q, input + [e], output', from');
  }

  lemma StablySortedFrom(q: Query, input: seq<Event>, output: seq<Event>, from: seq<nat>)
    requires |output| == |input| == |from|
    requires forall i | 0 <= i < |from| :: from[i] < |input| && output[i] == input[from[i]]
    requires forall i, j | 0 <= i < j < |from| :: from[i] != from[j]
    requires forall i, j | 0 <= i < j < |output| ::
               Order(q, output[i], output[j]) <= 0 && (Order(q, output[i], output[j]) == 0 ==> from[i] < from[j])
    ensures StablySorted(q, input, output, from)
  {
    hide Order;
  }

  /** The new element is not before anything left of its place and is before everything right of it. */
  lemma InsertedComparisons(q: Query, input: seq<Event>, output: seq<Event>, from: seq<nat>, e: Event, i: nat)
    requires StablySorted(q, input, output, from) && i <= |output|
    requires i > 0 ==> Order(q, output[i - 1], e) <= 0
    requires forall j | i <= j < |output| :: Order(q, output[j], e) > 0
    ensures forall j | 0 <= j < i :: Order(q, output[j], e) <= 0
    ensures forall j | i <= j < |output| :: Order(q, e, output[j]) < 0
  {
    hide Order;
    forall j | 0 <= j < i
      ensures Order(q, output[j], e) <= 0
    {
      ComparatorConsistent(q, output[j], output[i - 1], e);
    }
    forall j | i <= j < |output|
      ensures Order(q, e, output[j]) < 0
    {
      ComparatorConsistent(q, e, output[j], e);
    }
  }

  lemma InsertedPositions(q: Query, input: seq<Event>, output: seq<Event>, from: seq<nat>, e: Event, i: nat)
    requires StablySorted(q, input, output, from) && i <= |output|
    ensures var output', from' := Inserted(output, i, e), Inserted(from, i, |input|);
      && (forall k | 0 <= k < |from'| :: from'[k] < |input + [e]| && output'[k] == (input + [e])[from'[k]])
      && (forall k, l | 0 <= k < l < |from'| :: from'[k] != from'[l])
  {
    hide Order;
    var output', from' := Inserted(output, i, e), Inserted(from, i, |input|);
    forall k | 0 <= k < |from'|
      ensures from'[k] < |input + [e]| && output'[k] == (input + [e])[from'[k]]
    {
      if k != i {
        assert from'[k] == from[Before(i, k)] && output'[k] == output[Before(i, k)];
      }
    }
    forall k, l | 0 <= k < l < |from'|
      ensures from'[k] != from'[l]
    {
      if k != i && l != i {
        assert from'[k] == from[Before(i, k)] && from'[l] == from[Before(i, l)];
      } else {
        assert from'[if k == i then l else k] < |input|;
      }
    }
  }

  lemma InsertedOrder(q: Query, input: seq<Event>, output: seq<Event>, from: seq<nat>, e: Event, i: nat)
    requires StablySorted(q, input, output, from) && i <= |output|
    requires forall j | 0 <= j < i :: Order(q, output[j], e) <= 0
    requires forall j | i <= j < |output| :: Order(q, e, output[j]) < 0
    ensures var output', from' := Inserted(output, i, e), Inserted(from, i, |input|);
      forall k, l | 0 <= k < l < |output'| ::
        Order(q, output'[k], output'[l]) <= 0 && (Order(q, output'[k], output'[l]) == 0 ==> from'[k] < from'[l])
  {
    hide Order;
    var output', from' := Inserted(output, i, e), Inserted(from, i, |input|);
    forall k, l | 0 <= k < l < |output'|
      ensures Order(q, output'[k], output'[l]) <= 0
      ensures Order(q, output'[k], output'[l]) == 0 ==> from'[k] < from'[l]
    {
      if k != i && l != i {
        var k', l' := Before(i, k), Before(i, l);
        assert output'[k] == output[k'] && output'[l] == output[l'];
      } else if l == i {
        assert output'[k] == output[k] && from'[k] == from[k];
      } else {
        assert output'[l] == output[l - 1];
      }
    }
  }

  /** The loop over one run's events. */
  method PushMatching(q: Query, entries: seq<Event>, events: seq<Event>) returns (r: seq<Event>)
    ensures r == entries + Matching(q, events)
  {
    r := entries;
    for n := 0 to |events|
      invariant r == entries + Matching(q, events[..n])
    {
      assert events[..n + 1][..n] == events[..n];
      if q.Matches(events[n]) {
        r := r + [events[n]];
      }
    }
    assert events[..|events|] == events;
  }

  /** A report of these logs: every run is gone through in ascending order, what matches is stably sorted, and the runs
      whose reading fails are named. */
  ghost predicate Report(c: Codec, q: Query, logs: map<string, LogFile>, entries: seq<Event>, unreadable: seq<string>) {
    exists runIds, from ::
      && Ascending(runIds) && Elements(runIds) == logs.Keys && (forall r | r in runIds :: r in logs)
      && StablySorted(q, Gathered(c, q, logs, runIds), entries, from) && unreadable == Failing(c, logs, runIds)
  }

  /** Every run is read; a run whose reading fails is recorded and what it gave before is kept. */
  method QueryAuditEvents(c: Codec, q: Query, logs: map<string, LogFile>)
    returns (entries: seq<Event>, unreadable: seq<string>)
    ensures Report(c, q, logs, entries, unreadable)
  {
    hide ReadRun, Below, StablySorted;
    var runIds := Ordering.Sort(logs.Keys);
    assert forall r :: r in runIds <==> r in Elements(runIds);
    var pushed: seq<Event> := [];
    unreadable := [];
    for k := 0 to |runIds|
      invariant pushed == Gathered(c, q, logs, runIds[..k])
      invariant unreadable == Failing(c, logs, runIds[..k])
    {
      var runId := runIds[k];
      var read := ReadRun(c, runId, logs[runId]);
      assert runIds[..k + 1][..k] == runIds[..k];
      pushed := PushMatching(q, pushed, read.events);
      if read.failed {
        unreadable := unreadable + [runId];
      }
    }
    assert runIds[..|runIds|] == runIds;
    entries := Sort(q, pushed);
  }

  lemma {:induction false} FailingElements(c: Codec, logs: map<string, LogFile>, runIds: seq<string>)
    requires forall r | r in runIds :: r in logs
    ensures forall r :: r in Failing(c, logs, runIds) <==> r in runIds && ReadRun(c, r, logs[r]).failed
  {
    if runIds != [] {
      FailingElements(c, logs, runIds[..|runIds| - 1]);
    }
  }

  lemma MatchesExactly(q: Query)
    ensures forall e: Event :: q.Matches(e) <==>
      && (exists category :: e.meta.kind in TypesOf(category) &&
            (q.categories.Some? ==> category in q.categories.value))
      && (q.since.Some? && q.millis(e.meta.ts).Some? ==> q.millis(e.meta.ts).value >= q.since.value)
  {
    forall e: Event, category: Category
      ensures CategoryOf(e.meta.kind) == Some(category) <==> e.meta.kind in TypesOf(category)
    {
      CategoryExactly(e.meta.kind, category);
    }
    hide CategoryOf, TypesOf;
  }

  lemma ReportElements(
    c: Codec, q: Query, logs: map<string, LogFile>, entries: seq<Event>, unreadable: seq<string>)
    requires OwnEvents(c, logs) && Report(c, q, logs, entries, unreadable)
    ensures InOrder(q, entries)
    ensures forall e :: e in entries <==> q.Matches(e) && exists r :: r in logs && e in ReadRun(c, r, logs[r]).events
    ensures forall r :: r in unreadable <==> r in logs && ReadRun(c, r, logs[r]).failed
  {
    var runIds, from :|
      && Ascending(runIds) && Elements(runIds) == logs.Keys && (forall r | r in runIds :: r in logs)
      && StablySorted(q, Gathered(c, q, logs, runIds), entries, from) && unreadable == Failing(c, logs, runIds);
    hide ReadRun, Order, Earlier;
    var gathered := Gathered(c, q, logs, runIds);
    GatheredInRunOrder(c, q, logs, runIds);
    SortedReportInOrder(q, gathered, entries, from);
    GatheredElements(c, q, logs, runIds);
    SameElements(gathered, entries, from);
    FailingElements(c, logs, runIds);
    assert forall r :: r in runIds <==> r in Elements(runIds);
  }

  lemma ReadRunExactly(c: Codec, r: string, file: LogFile)
    ensures ReadRun(c, r, file).failed <==>
      !SafeRunId(r) || file.Unreadable? || (file.Content? && ReadAll(c, file.text).error.Some?)
    ensures forall e :: e in ReadRun(c, r, file).events <==>
      SafeRunId(r) && file.Content? && e in ReadAll(c, file.text).events
  {
  }

  /** The report: exactly the events of a wanted category that are not before the cut-off, of every run's log that can
      be read and of the readable part of every other, each once, in (time, run id, seq) order with malformed times
      last; and exactly the runs whose id is unsafe, whose log cannot be opened, or whose reading ends in an error. */
  lemma ReportIsExact(
    c: Codec, q: Query, logs: map<string, LogFile>, entries: seq<Event>, unreadable: seq<string>)
    requires OwnEvents(c, logs) && Report(c, q, logs, entries, unreadable)
    ensures InOrder(q, entries)
    ensures forall e :: e in entries <==>
      && (exists category :: e.meta.kind in TypesOf(category) &&
            (q.categories.Some? ==> category in q.categories.value))
      && (q.since.Some? && q.millis(e.meta.ts).Some? ==> q.millis(e.meta.ts).value >= q.since.value)
      && (exists r :: r in logs && SafeRunId(r) && logs[r].Content? && e in ReadAll(c, logs[r].text).events)
    ensures forall r :: r in unreadable <==>
      r in logs && (!SafeRunId(r) || logs[r].Unreadable? ||
                    (logs[r].Content? && ReadAll(c, logs[r].text).error.Some?))
  {
    ReportElements(c, q, logs, entries, unreadable);
    MatchesExactly(q);
    hide Report, InOrder, ReadRun, ReadAll, TypesOf, SafeRunId, Query.Matches, OwnEvents;
    forall r | r in logs
      ensures ReadRun(c, r, logs[r]).failed <==>
        !SafeRunId(r) || logs[r].Unreadable? || (logs[r].Content? && ReadAll(c, logs[r].text).error.Some?)
      ensures forall e :: e in ReadRun(c, r, logs[r]).events <==>
        SafeRunId(r) && logs[r].Content? && e in ReadAll(c, logs[r].text).events
    {
      ReadRunExactly(c, r, logs[r]);
    }
  }

  /** An injective renumbering of all positions reaches every position. */
  lemma SameElements(input: seq<Event>, output: seq<Event>, from: seq<nat>)
    requires |output| == |input| == |from|
    requires forall i | 0 <= i < |from| :: from[i] < |input| && output[i] == input[from[i]]
    requires forall i, j | 0 <= i < j < |from| :: from[i] != from[j]
    ensures forall e :: e in output <==> e in input
  {
    Pigeonhole(from, |input|);
    forall e | e in input ensures e in output {
      var k :| 0 <= k < |input| && input[k] == e;
      assert k in from;
      var i :| 0 <= i < |from| && from[i] == k;
      assert output[i] == e;
    }
  }

  ghost function Hit(from: seq<nat>): set<nat> {
    set k | k in from
  }

  ghost function Indices(n: nat): (r: set<nat>)
    ensures forall k :: k in r <==> 0 <= k < n
  {
    if n == 0 then {} else Indices(n - 1) + {n - 1}
  }

  lemma Pigeonhole(from: seq<nat>, n: nat)
    requires |from| == n && (forall i | 0 <= i < n :: from[i] < n)
    requires forall i, j | 0 <= i < j < n :: from[i] != from[j]
    ensures forall k | 0 <= k < n :: k in from
  {
    IndexCount(n);
    DistinctCount(from);
    assert Hit(from) <= Indices(n);
    if Hit(from) != Indices(n) {
      SubsetSmaller(Hit(from), Indices(n));
    }
    forall k | 0 <= k < n ensures k in from {
      assert k in Indices(n) && k in Hit(from);
    }
  }

  lemma {:induction false} IndexCount(n: nat)
    ensures |Indices(n)| == n
  {
    if n > 0 {
      IndexCount(n - 1);
    }
  }

  lemma {:induction false} DistinctCount(from: seq<nat>)
    requires forall i, j | 0 <= i < j < |from| :: from[i] != from[j]
    ensures |Hit(from)| == |from|
  {
    if from != [] {
      var front, last := from[..|from| - 1], from[|from| - 1];
      DistinctCount(front);
      assert last !in front;
      assert from == front + [last];
      assert Hit(from) == Hit(front) + {last};
    }
  }

  lemma SubsetSmaller(a: set<nat>, b: set<nat>)
    requires a < b
    ensures |a| < |b|
  {
    assert b == a + (b - a);
  }
}
