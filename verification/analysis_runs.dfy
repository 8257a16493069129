/**
 * The run registry and stream publisher of DtLgAnalysisOps
 * (packages/dt-module/src/dt-lg-analysis-ops.ts) as a system of atomic steps: what runs between
 * two awaits. Every interleaving of starts, stops, deletes, disposals and stream events is a
 * sequence of steps, and the theorems hold for all of them.
 */
module AnalysisRuns {
  import opened Prelude

  type Session = string

  // ----- stream events -----

  datatype Mode = Updates | MessagesTuple

  /** One message of a chunk: whether it has content, and whether it is an AIMessageChunk. */
  datatype Message = Message(hasContent: bool, isChunk: bool, body: string)

  /** A field of an error record: absent or null, a string, or anything else. */
  datatype Field = NoField | StringField(text: string) | OtherField

  datatype ErrorData = ErrorString(text: string) | ErrorRecord(message: Field, error: Field) | ErrorOther

  /**
   * A yielded chunk. `listed` holds the messages when the data is an array; `nested` those that
   * extractMessages finds when the data is truthy.
   */
  datatype Chunk = Chunk(event: string, listed: Option<seq<Message>>, nested: Option<seq<Message>>, error: ErrorData)

  function ExtractStreamError(data: ErrorData): string {
    match data
    case ErrorString(text) => text
    case ErrorRecord(message, error) =>
      (var field := if message != NoField then message else error;
       if field.StringField? && field.text != "" then field.text else "Analysis run failed")
    case ErrorOther => "Analysis run failed"
  }

  predicate Includes(s: string, part: string) { part <= s || (s != "" && Includes(s[1..], part)) }

  /** What a subscriber sees of a frame. */
  datatype Frame = Content(body: string) | Complete | Failed(message: string)

  function Terminal(streamError: Option<string>): Frame {
    if streamError.Some? && streamError.value != "" then Failed(streamError.value) else Complete
  }

  function Bodies(messages: seq<Message>, chunksOnly: bool): seq<Frame> {
    if messages == [] then []
    else
      (if messages[0].hasContent && (chunksOnly ==> messages[0].isChunk) then [Content(messages[0].body)] else [])
      + Bodies(messages[1..], chunksOnly)
  }

  /** The content frames of one chunk that is not an error event. */
  function Published(mode: Mode, c: Chunk): seq<Frame> {
    if mode == MessagesTuple && "messages" <= c.event && c.listed.Some? then Bodies(c.listed.value, true)
    else if mode == Updates && Includes(c.event, "updates") && c.nested.Some? then Bodies(c.nested.value, false)
    else []
  }

  // ----- states and steps -----

  datatype Phase = Opening | Reading | Closing | Ended

  /** One activation of startStream. */
  datatype Run = Run(session: Session, mode: Mode, phase: Phase, streamError: Option<string>)

  /** A frame on the shared channel, with the run that published it. */
  datatype Entry = Entry(run: nat, session: Session, frame: Frame)

  /** Runs are numbered in the order they start. */
  datatype State = State(table: map<Session, nat>, aborted: set<nat>, started: seq<Run>, channel: seq<Entry>)

  const INITIAL: State := State(map[], {}, [], [])

  datatype Event =
    | Stop(session: Session)
    | Delete(session: Session)
    | Dispose
    | Start(session: Session, mode: Mode)
    | Opened(run: nat)
    | Arrived(run: nat, chunk: Chunk)
    | StreamEnded(run: nat)
    | Threw(run: nat, message: string)

  function AbortRun(st: State, s: Session): State {
    if s in st.table then st.(aborted := st.aborted + {st.table[s]}, table := st.table - {s}) else st
  }

  function AbortAll(st: State): State { st.(aborted := st.aborted + st.table.Values, table := map[]) }

  /** startStream up to its first await. */
  function StartRun(st: State, s: Session, mode: Mode): State {
    var r := |st.started|;
    var superseded := if s in st.table then {st.table[s]} else {};
    State(st.table[s := r], st.aborted + superseded, st.started + [Run(s, mode, Opening, None)], st.channel)
  }

  function Entries(r: nat, s: Session, frames: seq<Frame>): seq<Entry> {
    seq(|frames|, k requires 0 <= k < |frames| => Entry(r, s, frames[k]))
  }

  function Publish(st: State, r: nat, frames: seq<Frame>): State
    requires r < |st.started|
  {
    st.(channel := st.channel + Entries(r, st.started[r].session, frames))
  }

  /** The run's own entry goes, unless a newer run holds the session's slot. */
  function Finally(st: State, r: nat): State
    requires r < |st.started|
  {
    var run := st.started[r];
    var table := if run.session in st.table && st.table[run.session] == r then st.table - {run.session} else st.table;
    st.(table := table, started := st.started[r := run.(phase := Ended)])
  }

  function ReceiveChunk(st: State, r: nat, c: Chunk): State
    requires r < |st.started|
  {
    var run := st.started[r];
    if r in st.aborted then st.(started := st.started[r := run.(phase := Closing)])
    else if c.event == "error" then
      st.(started := st.started[r := run.(streamError := Some(ExtractStreamError(c.error)))])
    else Publish(st, r, Published(run.mode, c))
  }

  function EndStream(st: State, r: nat): State
    requires r < |st.started|
  {
    Finally(if r in st.aborted then st else Publish(st, r, [Terminal(st.started[r].streamError)]), r)
  }

  function CatchThrow(st: State, r: nat, message: string): State
    requires r < |st.started|
  {
    Finally(if r in st.aborted then st else Publish(st, r, [Failed(message)]), r)
  }

  predicate InPhase(st: State, r: nat, phases: set<Phase>) { r < |st.started| && st.started[r].phase in phases }

  /** One step; an event its run is not waiting for changes nothing. */
  function Step(st: State, e: Event): State {
    match e
    case Stop(s) => AbortRun(st, s)
    case Delete(s) => AbortRun(st, s)
    case Dispose => AbortAll(st)
    case Start(s, mode) => StartRun(st, s, mode)
    case Opened(r) =>
      if InPhase(st, r, {Opening}) then st.(started := st.started[r := st.started[r].(phase := Reading)]) else st
    case Arrived(r, c) => if InPhase(st, r, {Reading}) then ReceiveChunk(st, r, c) else st
    case StreamEnded(r) => if InPhase(st, r, {Reading, Closing}) then EndStream(st, r) else st
    case Threw(r, message) => if InPhase(st, r, {Opening, Reading, Closing}) then CatchThrow(st, r, message) else st
  }

  /** All the steps of a history, oldest first. */
  function After(events: seq<Event>): State {
    if events == [] then INITIAL else Step(After(events[..|events| - 1]), events[|events| - 1])
  }

  // ----- what every state keeps -----

  predicate InFlight(st: State, r: nat) { r < |st.started| && st.started[r].phase != Ended && r !in st.aborted }

  predicate IsTerminal(f: Frame) { !f.Content? }

  /** The table maps each session to its only unaborted run in flight. */
  ghost predicate TableExact(st: State) {
    (forall s :: s in st.table ==> InFlight(st, st.table[s]) && st.started[st.table[s]].session == s)
    && (forall r: nat :: InFlight(st, r) ==> st.started[r].session in st.table && st.table[st.started[r].session] == r)
  }

  /** The table's run is the newest of its session, and only runs that exist were aborted. */
  ghost predicate TableNewest(st: State) {
    (forall r :: r in st.aborted ==> r < |st.started|)
    && forall s, r: nat :: s in st.table && r < |st.started| && st.started[r].session == s ==> r <= st.table[s]
  }

  /** On a session, a run's frames come before those of any later run: one block a run. */
  ghost predicate Blocks(st: State) {
    (forall i :: 0 <= i < |st.channel| ==>
       st.channel[i].run < |st.started| && st.channel[i].session == st.started[st.channel[i].run].session)
    && forall i, j :: 0 <= i < j < |st.channel| && st.channel[i].session == st.channel[j].session ==>
         st.channel[i].run <= st.channel[j].run
  }

  /** A terminal frame ends its run, which was not aborted; nothing of the run comes after it. */
  ghost predicate TerminalsLast(st: State) {
    (forall i :: 0 <= i < |st.channel| && IsTerminal(st.channel[i].frame) ==>
       st.channel[i].run < |st.started| && st.started[st.channel[i].run].phase == Ended && st.channel[i].run !in st.aborted)
    && forall i, j :: 0 <= i < j < |st.channel| && IsTerminal(st.channel[i].frame) ==> st.channel[j].run != st.channel[i].run
  }

  /** A run that ended unaborted has its terminal frame. */
  ghost predicate TerminalsThere(st: State) {
    forall r: nat :: r < |st.started| && st.started[r].phase == Ended && r !in st.aborted ==>
      exists i :: 0 <= i < |st.channel| && st.channel[i].run == r && IsTerminal(st.channel[i].frame)
  }

  /** An unaborted run is never in the closing phase, which only an abort leads to. */
  ghost predicate ClosingIsAborted(st: State) {
    forall r: nat :: r < |st.started| && st.started[r].phase == Closing ==> r in st.aborted
  }

  ghost predicate Inv(st: State) {
    ClosingIsAborted(st) && TableExact(st) && TableNewest(st) && Blocks(st) && TerminalsLast(st) && TerminalsThere(st)
  }

  lemma AbortKeepsInv(st: State, s: Session)
    requires Inv(st)
    ensures Inv(AbortRun(st, s)) && Inv(AbortAll(st))
  {
    AbortKeepsTable(st, s);
    var all := AbortAll(st);
    assert all.started == st.started && all.channel == st.channel;
    forall r | r in all.aborted && r !in st.aborted ensures InFlight(st, r) {
      var t :| t in st.table && st.table[t] == r;
    }
    forall r: nat | InFlight(st, r) ensures r in all.aborted {
      assert st.table[st.started[r].session] in st.table.Values;
    }
  }

  lemma AbortKeepsTable(st: State, s: Session)
    requires Inv(st)
    ensures Inv(AbortRun(st, s))
  {
    if s in st.table {
      var after := AbortRun(st, s);
      assert InFlight(st, st.table[s]);
      forall r: nat | InFlight(after, r) ensures st.started[r].session in after.table && after.table[st.started[r].session] == r {
        assert InFlight(st, r);
      }
    }
  }

  lemma StartKeepsInv(st: State, s: Session, mode: Mode)
    requires Inv(st)
    ensures Inv(StartRun(st, s, mode))
  {
    var after := StartRun(st, s, mode);
    var n := |st.started|;
    assert forall r: nat :: r < n ==> after.started[r] == st.started[r];
    forall r: nat | InFlight(after, r)
      ensures after.started[r].session in after.table && after.table[after.started[r].session] == r
    {
      if r < n { assert InFlight(st, r); }
    }
    forall t | t in after.table ensures InFlight(after, after.table[t]) && after.started[after.table[t]].session == t {
      if t != s { assert InFlight(st, st.table[t]); }
    }
    if s in st.table { assert InFlight(st, st.table[s]); }
    forall r: nat | r < |after.started| && after.started[r].phase == Ended && r !in after.aborted
      ensures exists i :: 0 <= i < |after.channel| && after.channel[i].run == r && IsTerminal(after.channel[i].frame)
    {
      assert st.started[r].phase == Ended;
    }
  }

  /** Content published by a run in flight goes after everything the session has. */
  lemma PublishKeepsBlocks(st: State, r: nat, frames: seq<Frame>)
    requires Inv(st) && InFlight(st, r)
    ensures Blocks(Publish(st, r, frames))
    ensures forall i :: 0 <= i < |st.channel| && st.channel[i].run == r ==> !IsTerminal(st.channel[i].frame)
  {
  }

  lemma ContentKeepsInv(st: State, r: nat, frames: seq<Frame>)
    requires Inv(st) && InFlight(st, r) && forall k :: 0 <= k < |frames| ==> !IsTerminal(frames[k])
    ensures Inv(Publish(st, r, frames))
  {
    PublishKeepsBlocks(st, r, frames);
    var after := Publish(st, r, frames);
    assert forall i :: 0 <= i < |st.channel| ==> after.channel[i] == st.channel[i];
    forall q: nat | q < |after.started| && after.started[q].phase == Ended && q !in after.aborted
      ensures exists i :: 0 <= i < |after.channel| && after.channel[i].run == q && IsTerminal(after.channel[i].frame)
    {
      var i :| 0 <= i < |st.channel| && st.channel[i].run == q && IsTerminal(st.channel[i].frame);
      assert after.channel[i] == st.channel[i];
    }
    assert forall t :: t in after.table ==> InFlight(st, st.table[t]);
    assert forall q: nat :: InFlight(after, q) ==> InFlight(st, q);
  }

  lemma EndKeepsTable(st: State, r: nat, channel: seq<Entry>)
    requires TableExact(st) && TableNewest(st) && r < |st.started| && st.started[r].phase != Ended
    ensures TableExact(Finally(st.(channel := channel), r)) && TableNewest(Finally(st.(channel := channel), r))
  {
    var after := Finally(st.(channel := channel), r);
    assert forall q: nat :: InFlight(after, q) <==> InFlight(st, q) && q != r;
  }

  /** Ending silently is for aborted runs, ending with a terminal frame for the others. */
  lemma EndKeepsInv(st: State, r: nat, frame: Frame)
    requires Inv(st) && r < |st.started| && st.started[r].phase != Ended && IsTerminal(frame)
    ensures Inv(Finally(if r in st.aborted then st else Publish(st, r, [frame]), r))
  {
    var mid := if r in st.aborted then st else Publish(st, r, [frame]);
    EndKeepsTable(st, r, mid.channel);
    assert st.(channel := mid.channel) == mid;
    EndKeepsChannel(st, r, frame);
    EndKeepsThere(st, r, frame);
  }

  lemma EndKeepsChannel(st: State, r: nat, frame: Frame)
    requires Inv(st) && r < |st.started| && st.started[r].phase != Ended && IsTerminal(frame)
    ensures var after := Finally(if r in st.aborted then st else Publish(st, r, [frame]), r);
            Blocks(after) && TerminalsLast(after)
  {
    if r !in st.aborted {
      PublishKeepsBlocks(st, r, [frame]);
      var after := Finally(Publish(st, r, [frame]), r);
      hide TableExact, TableNewest, TerminalsThere;
      assert |after.channel| == |st.channel| + 1 && after.channel[|st.channel|] == Entry(r, st.started[r].session, frame);
      assert forall i :: 0 <= i < |st.channel| ==> after.channel[i] == st.channel[i];
    }
  }

  lemma EndKeepsThere(st: State, r: nat, frame: Frame)
    requires TerminalsThere(st) && r < |st.started| && IsTerminal(frame)
    ensures TerminalsThere(Finally(if r in st.aborted then st else Publish(st, r, [frame]), r))
  {
    var after := Finally(if r in st.aborted then st else Publish(st, r, [frame]), r);
    assert r !in st.aborted ==> after.channel[|st.channel|] == Entry(r, st.started[r].session, frame);
    assert forall i :: 0 <= i < |st.channel| ==> after.channel[i] == st.channel[i];
    forall q: nat | q < |after.started| && after.started[q].phase == Ended && q !in after.aborted
      ensures exists i :: 0 <= i < |after.channel| && after.channel[i].run == q && IsTerminal(after.channel[i].frame)
    {
      if q != r {
        var i :| 0 <= i < |st.channel| && st.channel[i].run == q && IsTerminal(st.channel[i].frame);
        assert after.channel[i] == st.channel[i];
      }
    }
  }

  lemma PhaseKeepsInv(st: State, r: nat, run: Run)
    requires Inv(st) && r < |st.started| && st.started[r].phase != Ended && run.phase != Ended
    requires run.session == st.started[r].session && (run.phase == Closing ==> r in st.aborted)
    ensures Inv(st.(started := st.started[r := run]))
  {
    var after := st.(started := st.started[r := run]);
    assert forall q: nat :: InFlight(after, q) <==> InFlight(st, q);
    forall q: nat | q < |after.started| && after.started[q].phase == Ended && q !in after.aborted
      ensures exists i :: 0 <= i < |after.channel| && after.channel[i].run == q && IsTerminal(after.channel[i].frame)
    {
      assert st.started[q].phase == Ended;
    }
  }

  lemma {:induction false} BodiesAreContent(messages: seq<Message>, chunksOnly: bool)
    ensures forall k :: 0 <= k < |Bodies(messages, chunksOnly)| ==> !IsTerminal(Bodies(messages, chunksOnly)[k])
    decreases |messages|
  {
    if messages != [] { BodiesAreContent(messages[1..], chunksOnly); }
  }

  lemma PublishedIsContent(mode: Mode, c: Chunk)
    ensures forall k :: 0 <= k < |Published(mode, c)| ==> !IsTerminal(Published(mode, c)[k])
  {
    if c.listed.Some? { BodiesAreContent(c.listed.value, true); }
    if c.nested.Some? { BodiesAreContent(c.nested.value, false); }
  }

  lemma StepKeepsInv(st: State, e: Event)
    requires Inv(st)
    ensures Inv(Step(st, e))
  {
    hide Inv, Published;
    match e {
      case Stop(s) => AbortKeepsInv(st, s);
      case Delete(s) => AbortKeepsInv(st, s);
      case Dispose => AbortKeepsInv(st, "");
      case Start(s, mode) => StartKeepsInv(st, s, mode);
      case Opened(r) => if InPhase(st, r, {Opening}) { PhaseKeepsInv(st, r, st.started[r].(phase := Reading)); }
      case Arrived(r, c) =>
        if InPhase(st, r, {Reading}) {
          if r in st.aborted {
            PhaseKeepsInv(st, r, st.started[r].(phase := Closing));
          } else if c.event == "error" {
            PhaseKeepsInv(st, r, st.started[r].(streamError := Some(ExtractStreamError(c.error))));
          } else {
            PublishedIsContent(st.started[r].mode, c);
            ContentKeepsInv(st, r, Published(st.started[r].mode, c));
          }
        }
      case StreamEnded(r) =>
        if InPhase(st, r, {Reading, Closing}) { EndKeepsInv(st, r, Terminal(st.started[r].streamError)); }
      case Threw(r, message) =>
        if InPhase(st, r, {Opening, Reading, Closing}) { EndKeepsInv(st, r, Failed(message)); }
    }
  }

  /** Over every history: exact table, one block a run, terminal frames as promised. */
  lemma {:induction false} EveryHistory(events: seq<Event>)
    ensures Inv(After(events))
    decreases |events|
  {
    if events != [] {
      EveryHistory(events[..|events| - 1]);
      StepKeepsInv(After(events[..|events| - 1]), events[|events| - 1]);
    }
  }

  // ----- silence after a stop, a delete, a disposal or a newer start -----

  /** Every run of the session numbered below `n` is aborted or over. */
  ghost predicate Quiet(st: State, s: Session, n: nat) {
    n <= |st.started| && forall r: nat :: r < n && st.started[r].session == s ==> !InFlight(st, r)
  }

  /** `after` only adds to the channel, and on `s` nothing of a run below `n`. */
  ghost predicate AddsOnlyLater(st: State, after: State, s: Session, n: nat) {
    st.channel <= after.channel
    && forall i :: |st.channel| <= i < |after.channel| && after.channel[i].session == s ==> n <= after.channel[i].run
  }

  lemma QuietStep(st: State, e: Event, s: Session, n: nat)
    requires Quiet(st, s, n)
    ensures Quiet(Step(st, e), s, n) && AddsOnlyLater(st, Step(st, e), s, n)
  {
    hide Published, ExtractStreamError;
    var after := Step(st, e);
    assert |st.started| <= |after.started|;
    assert forall r: nat :: r < |st.started| ==> after.started[r].session == st.started[r].session;
    assert forall r: nat :: r < |st.started| && !InFlight(st, r) ==> !InFlight(after, r);
  }

  /** Once quiet, the older runs of a session never publish again, whatever happens next. */
  lemma {:induction false} QuietForever(st: State, events: seq<Event>, s: Session, n: nat)
    requires Quiet(st, s, n)
    ensures Quiet(Continue(st, events), s, n) && AddsOnlyLater(st, Continue(st, events), s, n)
    decreases |events|
  {
    if events != [] {
      var init := events[..|events| - 1];
      QuietForever(st, init, s, n);
      QuietStep(Continue(st, init), events[|events| - 1], s, n);
    }
  }

  function Continue(st: State, events: seq<Event>): State {
    if events == [] then st else Step(Continue(st, events[..|events| - 1]), events[|events| - 1])
  }

  /** A stop or a delete silences every run of its session started before it. */
  lemma StopSilences(history: seq<Event>, s: Session, events: seq<Event>, e: Event)
    requires e == Stop(s) || e == Delete(s)
    ensures var st := After(history);
            AddsOnlyLater(st, Continue(Step(st, e), events), s, |st.started|)
  {
    EveryHistory(history);
    QuietForever(Step(After(history), e), events, s, |After(history).started|);
  }

  /** Disposal silences every run started before it, on every session. */
  lemma DisposeSilences(history: seq<Event>, s: Session, events: seq<Event>)
    ensures var st := After(history);
            AddsOnlyLater(st, Continue(Step(st, Dispose), events), s, |st.started|)
  {
    EveryHistory(history);
    var st := After(history);
    var after := AbortAll(st);
    forall r: nat | InFlight(st, r) ensures !InFlight(after, r) {
      assert st.table[st.started[r].session] in st.table.Values;
    }
    QuietForever(after, events, s, |st.started|);
  }

  /** A new run silences the runs of its session started before it: two never share the channel. */
  lemma StartSupersedes(history: seq<Event>, s: Session, mode: Mode, events: seq<Event>)
    ensures var st := After(history);
            AddsOnlyLater(st, Continue(Step(st, Start(s, mode)), events), s, |st.started|)
  {
    EveryHistory(history);
    var st := After(history);
    forall r: nat | r < |st.started| && st.started[r].session == s ensures !InFlight(StartRun(st, s, mode), r) {
      assert InFlight(st, r) ==> r == st.table[s];
    }
    QuietForever(StartRun(st, s, mode), events, s, |st.started|);
  }

  // ----- a run publishes what it would alone -----

  function FramesOf(channel: seq<Entry>, r: nat): seq<Frame> {
    if channel == [] then []
    else
      var n := |channel| - 1;
      FramesOf(channel[..n], r) + if channel[n].run == r then [channel[n].frame] else []
  }

  lemma {:induction false} FramesConcat(a: seq<Entry>, b: seq<Entry>, r: nat)
    ensures FramesOf(a + b, r) == FramesOf(a, r) + FramesOf(b, r)
    decreases |b|
  {
    if b == [] {
      assert a + b == a;
    } else {
      var n := |b| - 1;
      FramesConcat(a, b[..n], r);
      assert (a + b)[..|a + b| - 1] == a + b[..n];
    }
  }

  lemma {:induction false} FramesOfEntries(q: nat, s: Session, frames: seq<Frame>, r: nat)
    ensures FramesOf(Entries(q, s, frames), r) == if q == r then frames else []
    decreases |frames|
  {
    if frames != [] {
      var n := |frames| - 1;
      FramesOfEntries(q, s, frames[..n], r);
      assert Entries(q, s, frames)[..n] == Entries(q, s, frames[..n]);
      assert frames == frames[..n] + [frames[n]];
    }
  }

  /** A run on its own: no other run, nothing that aborts it. */
  datatype Solo = NotStarted | Alone(run: Run, frames: seq<Frame>)

  function SoloStep(solo: Solo, r: nat, e: Event): Solo
    requires solo.Alone?
  {
    var phase := solo.run.phase;
    match e
    case Opened(q) => if q == r && phase == Opening then solo.(run := solo.run.(phase := Reading)) else solo
    case Arrived(q, c) =>
      if q != r || phase != Reading then solo
      else if c.event == "error" then solo.(run := solo.run.(streamError := Some(ExtractStreamError(c.error))))
      else solo.(frames := solo.frames + Published(solo.run.mode, c))
    case StreamEnded(q) =>
      if q != r || phase != Reading then solo
      else Alone(solo.run.(phase := Ended), solo.frames + [Terminal(solo.run.streamError)])
    case Threw(q, message) =>
      if q != r || phase == Ended then solo
      else Alone(solo.run.(phase := Ended), solo.frames + [Failed(message)])
    case _ => solo
  }

  function Starts(events: seq<Event>): nat {
    if events == [] then 0 else Starts(events[..|events| - 1]) + if events[|events| - 1].Start? then 1 else 0
  }

  /** The history as run `r` alone would live it. */
  function Replay(events: seq<Event>, r: nat): Solo {
    if events == [] then NotStarted
    else
      var init, e := events[..|events| - 1], events[|events| - 1];
      var solo := Replay(init, r);
      if solo.Alone? then SoloStep(solo, r, e)
      else if e.Start? && Starts(init) == r then Alone(Run(e.session, e.mode, Opening, None), [])
      else NotStarted
  }

  /**
   * No interference: whatever the other runs and the callers do, an unaborted run has published
   * exactly what it would alone, and an aborted one an initial part of that.
   */
  lemma {:induction false} NoInterference(events: seq<Event>, r: nat)
    requires r < |After(events).started|
    ensures Replay(events, r).Alone?
    ensures r !in After(events).aborted ==>
              Replay(events, r) == Alone(After(events).started[r], FramesOf(After(events).channel, r))
    ensures FramesOf(After(events).channel, r) <= Replay(events, r).frames
    decreases |events|
  {
    hide Step, SoloStep, FramesOf, TableExact, TableNewest, Blocks, TerminalsLast, TerminalsThere, ClosingIsAborted;
    if events != [] {
      var init, e := events[..|events| - 1], events[|events| - 1];
      StartCount(init, r);
      EveryHistory(init);
      StepFrames(After(init), e, r);
      if r < |After(init).started| {
        NoInterference(init, r);
        SoloGrows(Replay(init, r), r, e);
        SoloMatches(After(init), e, r, Replay(init, r));
      }
    }
  }

  lemma {:induction false} StartCount(events: seq<Event>, r: nat)
    ensures |After(events).started| == Starts(events)
    ensures r >= Starts(events) ==> Replay(events, r) == NotStarted && FramesOf(After(events).channel, r) == []
    decreases |events|
  {
    hide Step, SoloStep, FramesOf, Inv;
    assert FramesOf([], r) == [] by { NoFrames(r); }
    if events != [] {
      var init, e := events[..|events| - 1], events[|events| - 1];
      StartCount(init, r);
      EveryHistory(init);
      StepFrames(After(init), e, r);
    }
  }

  lemma NoFrames(r: nat)
    ensures FramesOf([], r) == []
  {
  }

  lemma StepFrames(st: State, e: Event, r: nat)
    requires Inv(st)
    ensures |Step(st, e).started| == |st.started| + if e.Start? then 1 else 0
    ensures r >= |st.started| ==> FramesOf(Step(st, e).channel, r) == FramesOf(st.channel, r)
    ensures e.Start? && r == |st.started| ==> Step(st, e).started[r] == Run(e.session, e.mode, Opening, None)
    ensures e.Start? && r == |st.started| ==> r !in Step(st, e).aborted
  {
    hide Published, ExtractStreamError, Terminal, FramesOf, Blocks, TerminalsLast, TerminalsThere;
    StepAdds(st, e, r);
  }

  /** What one step adds of run `r`. */
  lemma StepAdds(st: State, e: Event, r: nat)
    ensures FramesOf(Step(st, e).channel, r) == FramesOf(st.channel, r) + Added(st, e, r)
  {
    hide Published, ExtractStreamError, Terminal;
    match e {
      case Arrived(q, c) =>
        if InPhase(st, q, {Reading}) && q !in st.aborted && c.event != "error" {
          PublishAdds(st, q, Published(st.started[q].mode, c), r);
        }
      case StreamEnded(q) =>
        if InPhase(st, q, {Reading, Closing}) && q !in st.aborted { PublishAdds(st, q, [Terminal(st.started[q].streamError)], r); }
      case Threw(q, message) =>
        if InPhase(st, q, {Opening, Reading, Closing}) && q !in st.aborted { PublishAdds(st, q, [Failed(message)], r); }
      case _ =>
    }
  }

  lemma PublishAdds(st: State, q: nat, frames: seq<Frame>, r: nat)
    requires q < |st.started|
    ensures FramesOf(Publish(st, q, frames).channel, r) == FramesOf(st.channel, r) + if q == r then frames else []
  {
    FramesConcat(st.channel, Entries(q, st.started[q].session, frames), r);
    FramesOfEntries(q, st.started[q].session, frames, r);
  }

  function Added(st: State, e: Event, r: nat): seq<Frame> {
    if r in st.aborted then []
    else
      match e
      case Arrived(q, c) =>
        if q == r && InPhase(st, q, {Reading}) && c.event != "error" then Published(st.started[q].mode, c) else []
      case StreamEnded(q) =>
        if q == r && InPhase(st, q, {Reading, Closing}) then [Terminal(st.started[q].streamError)] else []
      case Threw(q, message) =>
        if q == r && InPhase(st, q, {Opening, Reading, Closing}) then [Failed(message)] else []
      case _ => []
  }

  lemma SoloMatches(st: State, e: Event, r: nat, solo: Solo)
    requires r < |st.started| && solo.Alone? && ClosingIsAborted(st)
    requires r !in st.aborted ==> solo == Alone(st.started[r], FramesOf(st.channel, r))
    requires FramesOf(st.channel, r) <= solo.frames
    ensures r !in Step(st, e).aborted ==>
              SoloStep(solo, r, e) == Alone(Step(st, e).started[r], FramesOf(Step(st, e).channel, r))
    ensures FramesOf(Step(st, e).channel, r) <= SoloStep(solo, r, e).frames
  {
    hide Published, ExtractStreamError, Terminal, FramesOf;
    StepAdds(st, e, r);
    SoloGrows(solo, r, e);
    AbortsStay(st, e);
    if r !in st.aborted {
      SoloRun(st, e, r, solo);
    }
  }

  lemma SoloGrows(solo: Solo, r: nat, e: Event)
    requires solo.Alone?
    ensures SoloStep(solo, r, e).Alone? && solo.frames <= SoloStep(solo, r, e).frames
  {
    hide Published, ExtractStreamError, Terminal;
  }

  lemma AbortsStay(st: State, e: Event)
    ensures st.aborted <= Step(st, e).aborted
  {
    hide Published, ExtractStreamError, Terminal;
  }

  /** On an unaborted run, a step of the system is the run's own step. */
  lemma SoloRun(st: State, e: Event, r: nat, solo: Solo)
    requires r < |st.started| && solo.Alone? && ClosingIsAborted(st) && r !in st.aborted && solo.run == st.started[r]
    ensures SoloStep(solo, r, e).frames == solo.frames + Added(st, e, r)
    ensures r < |Step(st, e).started| && Step(st, e).started[r] == SoloStep(solo, r, e).run
  {
    hide Published, ExtractStreamError, Terminal;
    assert solo.run.phase != Closing;
    assert solo.frames + [] == solo.frames;
    match e {
      case Arrived(q, c) => if q == r { assert InPhase(st, r, {Reading}) <==> solo.run.phase == Reading; }
      case StreamEnded(q) =>
      case Threw(q, message) =>
      case _ =>
    }
  }

  // ----- what a run's frames say -----

  /** The text an error event gives, by the shape of its data. */
  ghost predicate Says(data: ErrorData, text: string) {
    (data.ErrorString? ==> text == data.text)
    && (data.ErrorOther? ==> text == "Analysis run failed")
    && (data.ErrorRecord? && data.message.StringField? && data.message.text != "" ==> text == data.message.text)
    && (data.ErrorRecord? && data.message.NoField? && data.error.StringField? && data.error.text != "" ==> text == data.error.text)
    && (data.ErrorRecord? && (data.message.OtherField? || data.message == StringField("")) ==> text == "Analysis run failed")
    && (data.ErrorRecord? && data.message.NoField? && (!data.error.StringField? || data.error.text == "") ==> text == "Analysis run failed")
  }

  lemma SaysOne(data: ErrorData, text: string)
    ensures Says(data, text) <==> text == ExtractStreamError(data)
  {
  }

  /** The run read an error event there: it was reading, and nothing had aborted it. */
  ghost predicate ReadsError(events: seq<Event>, r: nat, i: nat) {
    i < |events| && events[i].Arrived? && events[i].run == r && events[i].chunk.event == "error"
    && InPhase(After(events[..i]), r, {Reading}) && r !in After(events[..i]).aborted
  }

  /** The last error event the run read. */
  ghost predicate LastError(events: seq<Event>, r: nat, i: nat) {
    ReadsError(events, r, i) && forall j: nat :: i < j ==> !ReadsError(events, r, j)
  }

  ghost predicate ReadsNoError(events: seq<Event>, r: nat) { forall j: nat :: !ReadsError(events, r, j) }

  /** The text of the last error event the run read. */
  ghost predicate LastText(events: seq<Event>, r: nat, text: string) {
    exists i: nat :: LastError(events, r, i) && Says(events[i].chunk.error, text)
  }

  /** There is at most one such text, and none without an error event. */
  lemma OneText(events: seq<Event>, r: nat, a: string, b: string)
    requires LastText(events, r, a)
    ensures !ReadsNoError(events, r) && (LastText(events, r, b) ==> a == b)
  {
    hide After, InPhase, Says;
    var i: nat :| LastError(events, r, i) && Says(events[i].chunk.error, a);
    if LastText(events, r, b) {
      var j: nat :| LastError(events, r, j) && Says(events[j].chunk.error, b);
      assert i == j;
      SaysOne(events[i].chunk.error, a);
      SaysOne(events[i].chunk.error, b);
    }
  }

  lemma ReadsBefore(events: seq<Event>, r: nat, j: nat)
    requires j < |events| - 1
    ensures ReadsError(events, r, j) <==> ReadsError(events[..|events| - 1], r, j)
  {
    hide After, InPhase;
    assert events[..|events| - 1][..j] == events[..j];
  }

  /** The newest event is the last error read, or what was the last stays it. */
  lemma LastMoves(events: seq<Event>, r: nat, text: string)
    requires events != []
    ensures var n := |events| - 1;
            if ReadsError(events, r, n) then Says(events[n].chunk.error, text) ==> LastText(events, r, text)
            else (LastText(events[..n], r, text) ==> LastText(events, r, text)) && (ReadsNoError(events[..n], r) ==> ReadsNoError(events, r))
  {
    hide Says, After, InPhase;
    var n := |events| - 1;
    assert forall j: nat :: j > n ==> !ReadsError(events, r, j);
    forall j: nat | j < n ensures ReadsError(events, r, j) <==> ReadsError(events[..n], r, j) { ReadsBefore(events, r, j); }
    if ReadsError(events, r, n) {
      assert LastError(events, r, n);
    } else if LastText(events[..n], r, text) {
      var i: nat :| LastError(events[..n], r, i) && Says(events[..n][i].chunk.error, text);
      assert events[..n][i] == events[i];
      forall j: nat | i < j ensures !ReadsError(events, r, j) { assert j < n ==> !ReadsError(events[..n], r, j); }
      assert LastError(events, r, i);
    }
  }

  lemma {:induction false} NotYet(events: seq<Event>, r: nat)
    requires r >= |After(events).started|
    ensures ReadsNoError(events, r)
    decreases |events|
  {
    hide Step, Inv, After, InPhase;
    forall j: nat ensures !ReadsError(events, r, j) {
      if j < |events| { StartedGrow(events, j); NoPhase(After(events[..j]), r); }
    }
  }

  lemma NoPhase(st: State, r: nat)
    requires r >= |st.started|
    ensures !InPhase(st, r, {Reading})
  {
  }

  lemma {:induction false} StartedGrow(events: seq<Event>, j: nat)
    requires j <= |events|
    ensures |After(events[..j]).started| <= |After(events).started|
    decreases |events|
  {
    hide Step, Inv, InPhase;
    if j == |events| {
      assert events[..j] == events;
    } else {
      var init := events[..|events| - 1];
      EveryHistory(init);
      StepFrames(After(init), events[|events| - 1], 0);
      assert init[..j] == events[..j];
      StartedGrow(init, j);
    }
  }

  /** Only an error event that is read changes what is kept. */
  lemma ErrorStep(st: State, e: Event, r: nat)
    requires r < |st.started| && r !in st.aborted
    ensures r < |Step(st, e).started|
    ensures Step(st, e).started[r].streamError
         == if e.Arrived? && e.run == r && e.chunk.event == "error" && InPhase(st, r, {Reading}) then Some(ExtractStreamError(e.chunk.error))
            else st.started[r].streamError
  {
    hide ExtractStreamError, Published;
  }

  /** What a run has kept is the text of the last error event it read. */
  lemma {:induction false} ErrorKept(events: seq<Event>, r: nat)
    requires r < |After(events).started| && r !in After(events).aborted
    ensures match After(events).started[r].streamError
            case None => ReadsNoError(events, r)
            case Some(text) => LastText(events, r, text)
    decreases |events|
  {
    hide Step, Says, ExtractStreamError, InPhase, Inv, LastText, ReadsNoError;
    var n := |events| - 1;
    var init, e := events[..n], events[n];
    EveryHistory(init);
    StepFrames(After(init), e, r);
    AbortsStay(After(init), e);
    LastMoves(events, r, "");
    if r < |After(init).started| {
      ErrorKept(init, r);
      ErrorStep(After(init), e, r);
      if ReadsError(events, r, n) {
        var text := ExtractStreamError(e.chunk.error);
        SaysOne(e.chunk.error, text);
        LastMoves(events, r, text);
      } else if After(init).started[r].streamError.Some? {
        LastMoves(events, r, After(init).started[r].streamError.value);
      }
    } else {
      NotYet(init, r);
      NoPhase(After(init), r);
    }
  }

  /**
   * How a run ends that nobody aborted, said of its history: its stream's end adds one frame, the text of
   * the last error event it read if there was one and it gave a text, and `Complete` otherwise.
   */
  lemma EndSays(events: seq<Event>, r: nat)
    requires InPhase(After(events), r, {Reading}) && r !in After(events).aborted
    ensures ReadsNoError(events, r) || exists text :: LastText(events, r, text)
    ensures var st, after := After(events), Step(After(events), StreamEnded(r));
            |after.channel| == |st.channel| + 1 && after.channel[..|st.channel|] == st.channel
            && after.channel[|st.channel|].run == r && after.channel[|st.channel|].session == st.started[r].session
            && r < |after.started| && after.started[r].phase == Ended
            && (ReadsNoError(events, r) ==> after.channel[|st.channel|].frame == Complete)
            && forall text :: LastText(events, r, text) ==> after.channel[|st.channel|].frame == if text == "" then Complete else Failed(text)
  {
    hide After, Step, LastText, ReadsNoError;
    ErrorKept(events, r);
    EndAdds(After(events), r);
    var kept := After(events).started[r].streamError;
    if kept.Some? {
      forall text | LastText(events, r, text) ensures text == kept.value { OneText(events, r, kept.value, text); }
      OneText(events, r, kept.value, "");
    } else {
      forall text ensures !LastText(events, r, text) {
        if LastText(events, r, text) { OneText(events, r, text, text); }
      }
    }
  }

  lemma EndAdds(st: State, r: nat)
    requires InPhase(st, r, {Reading}) && r !in st.aborted
    ensures var after, kept := Step(st, StreamEnded(r)), st.started[r].streamError;
            |after.channel| == |st.channel| + 1 && after.channel[..|st.channel|] == st.channel && r < |after.started| && after.started[r].phase == Ended
            && after.channel[|st.channel|] == Entry(r, st.started[r].session, if kept == None || kept == Some("") then Complete else Failed(kept.value))
  {
  }

  /** A stream that throws ends its unaborted run with that message, whatever it had read. */
  lemma ThrowSays(st: State, r: nat, message: string)
    requires InPhase(st, r, {Opening, Reading, Closing}) && r !in st.aborted
    ensures var after := Step(st, Threw(r, message));
            after.channel == st.channel + [Entry(r, st.started[r].session, Failed(message))] && after.started[r].phase == Ended
  {
    assert Entries(r, st.started[r].session, [Failed(message)]) == [Entry(r, st.started[r].session, Failed(message))];
  }

  // ----- what a chunk publishes -----

  /** The positions of the messages that are published: those with content, and in one mode only message chunks. */
  ghost predicate Picked(messages: seq<Message>, chunksOnly: bool, ps: seq<nat>) {
    (forall i, j :: 0 <= i < j < |ps| ==> ps[i] < ps[j]) && (forall i :: 0 <= i < |ps| ==> ps[i] < |messages|)
    && forall k: nat :: k < |messages| ==> (k in ps <==> messages[k].hasContent && (!chunksOnly || messages[k].isChunk))
  }

  /** The bodies at these positions, in order. */
  predicate BodiesAt(messages: seq<Message>, ps: seq<nat>, frames: seq<Frame>) {
    |frames| == |ps| && forall i :: 0 <= i < |ps| ==> ps[i] < |messages| && frames[i] == Content(messages[ps[i]].body)
  }

  function Shifted(ps: seq<nat>): seq<nat> { seq(|ps|, i requires 0 <= i < |ps| => ps[i] + 1) }

  lemma {:induction false} BodiesPicked(messages: seq<Message>, chunksOnly: bool) returns (ps: seq<nat>)
    ensures Picked(messages, chunksOnly, ps) && BodiesAt(messages, ps, Bodies(messages, chunksOnly))
    decreases |messages|
  {
    hide Picked, BodiesAt, Shifted;
    ps := [];
    if messages == [] {
      PickedNone(chunksOnly);
    } else {
      var rest := BodiesPicked(messages[1..], chunksOnly);
      var own: seq<nat> := if messages[0].hasContent && (!chunksOnly || messages[0].isChunk) then [0] else [];
      ps := own + Shifted(rest);
      PickedStep(messages, chunksOnly, rest, own, ps);
      BodiesStep(messages, rest, own, Bodies(messages[1..], chunksOnly));
    }
  }

  lemma BodiesStep(messages: seq<Message>, rest: seq<nat>, own: seq<nat>, tail: seq<Frame>)
    requires messages != [] && BodiesAt(messages[1..], rest, tail) && (own == [] || own == [0])
    ensures BodiesAt(messages, own + Shifted(rest), (if own == [] then [] else [Content(messages[0].body)]) + tail)
  {
    var all, ps := (if own == [] then [] else [Content(messages[0].body)]) + tail, own + Shifted(rest);
    forall i | 0 <= i < |ps| ensures ps[i] < |messages| && all[i] == Content(messages[ps[i]].body) {
      if i >= |own| { assert messages[1..][rest[i - |own|]] == messages[ps[i]]; }
    }
  }

  lemma PickedNone(chunksOnly: bool)
    ensures Picked([], chunksOnly, []) && BodiesAt([], [], [])
  {
  }

  lemma PickedStep(messages: seq<Message>, chunksOnly: bool, rest: seq<nat>, own: seq<nat>, ps: seq<nat>)
    requires messages != [] && Picked(messages[1..], chunksOnly, rest)
    requires own == if messages[0].hasContent && (!chunksOnly || messages[0].isChunk) then [0] else []
    requires ps == own + Shifted(rest)
    ensures Picked(messages, chunksOnly, ps)
  {
    hide Shifted;
    ShiftedAt(own, rest);
    forall k: nat | k < |messages| ensures k in ps <==> messages[k].hasContent && (!chunksOnly || messages[k].isChunk) {
      InShifted(own, rest, k);
      if k > 0 { assert messages[1..][k - 1] == messages[k]; }
    }
  }

  lemma ShiftedAt(own: seq<nat>, rest: seq<nat>)
    ensures var ps := own + Shifted(rest);
            |ps| == |own| + |rest| && (forall i :: 0 <= i < |own| ==> ps[i] == own[i])
            && forall i :: |own| <= i < |ps| ==> ps[i] == rest[i - |own|] + 1
  {
  }

  lemma InShifted(own: seq<nat>, rest: seq<nat>, k: nat)
    requires own == [] || own == [0]
    ensures k in own + Shifted(rest) <==> if k == 0 then own != [] else k - 1 in rest
  {
    var ps := own + Shifted(rest);
    if k in ps {
      var i :| 0 <= i < |ps| && ps[i] == k;
      if k > 0 { assert rest[i - |own|] == k - 1; }
    }
    if k > 0 && k - 1 in rest {
      var i :| 0 <= i < |rest| && rest[i] == k - 1;
      assert ps[|own| + i] == k;
    }
    if own != [] { assert ps[0] == 0; }
  }

  predicate StandsAt(s: string, part: string, i: nat) { i + |part| <= |s| && s[i..i + |part|] == part }

  /** The name holds the part somewhere. */
  ghost predicate Within(s: string, part: string) { exists i: nat :: StandsAt(s, part, i) }

  lemma {:induction false} IncludesMeans(s: string, part: string)
    ensures Includes(s, part) <==> Within(s, part)
    decreases |s|
  {
    if part <= s {
      assert StandsAt(s, part, 0);
    } else if s != "" {
      IncludesMeans(s[1..], part);
      if Within(s[1..], part) {
        var i: nat :| StandsAt(s[1..], part, i);
        assert StandsAt(s, part, i + 1);
      }
      if Within(s, part) {
        var i: nat :| StandsAt(s, part, i);
        assert i > 0 && StandsAt(s[1..], part, i - 1);
      }
    }
  }

  /** What a chunk's content frames are, by its event's name and the run's mode. */
  lemma PublishedSays(mode: Mode, c: Chunk)
    ensures mode == MessagesTuple ==>
              if StandsAt(c.event, "messages", 0) && c.listed.Some? then Published(mode, c) == Bodies(c.listed.value, true)
              else Published(mode, c) == []
    ensures mode == Updates ==>
              if Within(c.event, "updates") && c.nested.Some? then Published(mode, c) == Bodies(c.nested.value, false)
              else Published(mode, c) == []
  {
    hide Bodies, Includes;
    IncludesMeans(c.event, "updates");
    assert "messages" <= c.event <==> StandsAt(c.event, "messages", 0);
  }

  lemma ChunkAdds(st: State, r: nat, c: Chunk)
    requires InPhase(st, r, {Reading}) && r !in st.aborted
    ensures Step(st, Arrived(r, c)).channel
         == st.channel + if c.event == "error" then [] else Entries(r, st.started[r].session, Published(st.started[r].mode, c))
  {
    hide Published, ExtractStreamError;
  }

  /**
   * What an unaborted run publishes of a chunk it reads: nothing of an error event; in tuple mode the message
   * chunks with content of an event whose name starts with "messages"; in update mode the messages with
   * content of an event whose name holds "updates"; each once, in order, on its own session.
   */
  lemma ChunkSays(st: State, r: nat, c: Chunk)
    requires InPhase(st, r, {Reading}) && r !in st.aborted
    ensures var after, run := Step(st, Arrived(r, c)), st.started[r];
            st.channel <= after.channel
            && (forall k :: |st.channel| <= k < |after.channel| ==> after.channel[k].run == r && after.channel[k].session == run.session)
            && (c.event == "error" ==> after.channel == st.channel)
            && (c.event != "error" && run.mode == MessagesTuple ==>
                  if StandsAt(c.event, "messages", 0) && c.listed.Some?
                  then exists ps :: Picked(c.listed.value, true, ps) && Adds(st, after, c.listed.value, ps)
                  else after.channel == st.channel)
            && (c.event != "error" && run.mode == Updates ==>
                  if Within(c.event, "updates") && c.nested.Some?
                  then exists ps :: Picked(c.nested.value, false, ps) && Adds(st, after, c.nested.value, ps)
                  else after.channel == st.channel)
  {
    hide Bodies, Published, Step, Within, StandsAt, Picked;
    ChunkAdds(st, r, c);
    PublishedSays(st.started[r].mode, c);
    if c.listed.Some? { var ps := BodiesPicked(c.listed.value, true); }
    if c.nested.Some? { var ps := BodiesPicked(c.nested.value, false); }
  }

  /** The channel grows by the bodies at these positions, in order. */
  ghost predicate Adds(st: State, after: State, messages: seq<Message>, ps: seq<nat>) {
    |after.channel| == |st.channel| + |ps|
    && forall i :: 0 <= i < |ps| ==> ps[i] < |messages| && after.channel[|st.channel| + i].frame == Content(messages[ps[i]].body)
  }

  // ----- the registry as objects -----

  class AbortController {
    var aborted: bool

    constructor ()
      ensures !aborted
    {
      aborted := false;
    }

    method Abort()
      modifies this
      ensures aborted
    {
      aborted := true;
    }
  }

  /** The locals of one startStream activation; its controller is shared with the registry. */
  datatype Flight = Flight(session: Session, mode: Mode, phase: Phase, streamError: Option<string>, controller: AbortController)

  function RunOf(f: Flight): Run { Run(f.session, f.mode, f.phase, f.streamError) }

  function RunsOf(flights: seq<Flight>): seq<Run> {
    seq(|flights|, r requires 0 <= r < |flights| => RunOf(flights[r]))
  }

  lemma RunsSnoc(flights: seq<Flight>, f: Flight)
    ensures RunsOf(flights + [f]) == RunsOf(flights) + [RunOf(f)]
  {
  }

  /** Each registry entry holds the controller of the run the table names; no two runs share one. */
  ghost predicate Linked(runs: map<Session, AbortController>, flights: seq<Flight>, table: map<Session, nat>) {
    table.Keys == runs.Keys
    && (forall s :: s in table ==> table[s] < |flights| && runs[s] == flights[table[s]].controller)
    && (forall i, j :: 0 <= i < j < |flights| ==> flights[i].controller != flights[j].controller)
  }

  lemma LinkedStart(runs: map<Session, AbortController>, flights: seq<Flight>, table: map<Session, nat>, f: Flight)
    requires Linked(runs, flights, table) && forall i :: 0 <= i < |flights| ==> flights[i].controller != f.controller
    ensures Linked(runs[f.session := f.controller], flights + [f], table[f.session := |flights|])
  {
  }

  lemma LinkedHere(runs: map<Session, AbortController>, flights: seq<Flight>, table: map<Session, nat>, s: Session)
    requires Linked(runs, flights, table)
    ensures table.Keys == runs.Keys && (s in runs ==> table[s] < |flights| && runs[s] == flights[table[s]].controller)
    ensures forall i, j :: 0 <= i < j < |flights| ==> flights[i].controller != flights[j].controller
  {
  }

  lemma StartIs(st: State, s: Session, mode: Mode)
    ensures Step(st, Start(s, mode)) == StartRun(st, s, mode)
  {
  }

  class AnalysisOps {
    var runs: map<Session, AbortController>
    var flights: seq<Flight>
    var channel: seq<Entry>
    /** The number of the run whose controller the registry holds. */
    ghost var table: map<Session, nat>

    ghost function Controllers(): set<AbortController>
      reads this
    {
      set f | f in flights :: f.controller
    }

    ghost predicate Valid()
      reads this
    {
      Linked(runs, flights, table)
    }

    ghost function View(): State
      reads this, Controllers()
    {
      State(table, (set r | 0 <= r < |flights| && flights[r].controller.aborted),
            RunsOf(flights), channel)
    }

    constructor ()
      ensures Valid() && View() == INITIAL
    {
      runs, flights, channel, table := map[], [], [], map[];
    }

    /** abortRun, which stopRun returns and deleteSession runs first. */
    method AbortRunOf(id: Session) returns (found: bool)
      requires Valid()
      modifies this`runs, this`table, Controllers()
      ensures Valid() && View() == Step(old(View()), Stop(id)) == Step(old(View()), Delete(id))
      ensures found <==> id in old(runs)
    {
      if id !in runs {
        return false;
      }
      var controller := runs[id];
      assert controller in Controllers() by { assert flights[table[id]] in flights; }
      controller.Abort();
      runs := runs - {id};
      table := table - {id};
      assert View().aborted == old(View()).aborted + {old(table)[id]};
      return true;
    }

    /** abortAll: every registered controller, then the registry. */
    method AbortAllRuns()
      requires Valid()
      modifies this`runs, this`table, Controllers()
      ensures Valid() && View() == Step(old(View()), Dispose)
    {
      RegisteredRuns();
      ghost var was := View();
      AbortEach(runs.Values);
      runs := map[];
      table := map[];
      assert View().aborted == was.aborted + was.table.Values;
    }

    static method AbortEach(controllers: set<AbortController>)
      modifies controllers
      ensures forall c :: c in controllers ==> c.aborted
    {
      var todo := controllers;
      while todo != {}
        invariant todo <= controllers
        invariant forall c :: c in controllers && c !in todo ==> c.aborted
      {
        var c :| c in todo;
        c.Abort();
        todo := todo - {c};
      }
    }

    /** The registered controllers are those of the runs in the table. */
    lemma RegisteredRuns()
      requires Valid()
      ensures runs.Values <= Controllers()
      ensures forall r: nat :: r < |flights| ==> (flights[r].controller in runs.Values <==> r in table.Values)
      ensures forall r :: r in table.Values ==> r < |flights|
    {
      forall c | c in runs.Values ensures c in Controllers() {
        var s :| s in runs && runs[s] == c;
        assert flights[table[s]] in flights;
      }
      forall r: nat | r < |flights| ensures flights[r].controller in runs.Values <==> r in table.Values {
        if flights[r].controller in runs.Values {
          var s :| s in runs && runs[s] == flights[r].controller;
          assert table[s] == r;
        }
        if r in table.Values {
          var s :| s in table && table[s] == r;
          assert runs[s] in runs.Values;
        }
      }
    }

    /** startStream up to its first await: the new controller supersedes the session's old one. */
    method StartStream(sessionId: Session, mode: Mode) returns (run: nat)
      requires Valid()
      modifies this`runs, this`flights, this`table, Controllers()
      ensures Valid() && View() == Step(old(View()), Start(sessionId, mode))
      ensures run == |old(flights)|
    {
      hide Step, Linked;
      StartIs(View(), sessionId, mode);
      LinkedHere(runs, flights, table, sessionId);
      var controller := new AbortController();
      assert forall i :: 0 <= i < |flights| ==> flights[i].controller != controller;
      if sessionId in runs {
        assert runs[sessionId] in Controllers() by { assert flights[table[sessionId]] in flights; }
        runs[sessionId].Abort();
      }
      run := |flights|;
      ghost var was := old(View());
      runs := runs[sessionId := controller];
      table := table[sessionId := run];
      flights := flights + [Flight(sessionId, mode, Opening, None, controller)];
      LinkedStart(old(runs), old(flights), old(table), flights[run]);
      assert Valid();
      RunsSnoc(old(flights), flights[run]);
      assert View().aborted == was.aborted + (if sessionId in was.table then {was.table[sessionId]} else {});
    }

    method PublishFrame(run: nat, frame: Frame)
      requires Valid() && run < |flights|
      modifies this`channel
      ensures Valid() && View() == Publish(old(View()), run, [frame])
    {
      channel := channel + [Entry(run, flights[run].session, frame)];
      assert Entries(run, flights[run].session, [frame]) == [Entry(run, flights[run].session, frame)];
    }

    method SetFlight(run: nat, f: Flight)
      requires Valid() && run < |flights| && f.controller == flights[run].controller && f.session == flights[run].session
      modifies this`flights
      ensures Valid() && Controllers() == old(Controllers())
      ensures View() == old(View()).(started := old(View()).started[run := RunOf(f)])
      ensures flights == old(flights)[run := f]
    {
      ghost var was := old(View());
      assert forall g :: g in flights ==> exists i :: 0 <= i < |flights| && flights[i] == g;
      flights := flights[run := f];
      assert forall i :: 0 <= i < |flights| ==> flights[i].controller == old(flights)[i].controller;
      assert View().started == was.started[run := RunOf(f)];
      SameControllers(old(flights), flights);
    }

    /** The finally block: only the run's own registry entry is cleared. */
    method FinallyClear(run: nat)
      requires Valid() && run < |flights|
      modifies this`flights, this`runs, this`table
      ensures Valid() && View() == Finally(old(View()), run)
    {
      var f := flights[run];
      ghost var was := old(View());
      if f.session in runs && runs[f.session] == f.controller {
        assert table[f.session] == run;
        runs := runs - {f.session};
        table := table - {f.session};
      }
      SetFlight(run, f.(phase := Ended));
    }

    /** The stream answered. */
    method OnOpened(run: nat)
      requires Valid() && run < |flights| && flights[run].phase == Opening
      modifies this`flights
      ensures Valid() && View() == Step(old(View()), Opened(run))
    {
      SetFlight(run, flights[run].(phase := Reading));
    }

    /** The loop body for one chunk. */
    method OnChunk(run: nat, chunk: Chunk)
      requires Valid() && run < |flights| && flights[run].phase == Reading
      modifies this`flights, this`channel
      ensures Valid() && View() == Step(old(View()), Arrived(run, chunk))
    {
      hide Includes, ExtractStreamError;
      var f := flights[run];
      if f.controller.aborted {
        SetFlight(run, f.(phase := Closing));
        return;
      }
      if chunk.event == "error" {
        SetFlight(run, f.(streamError := Some(ExtractStreamError(chunk.error))));
        return;
      }
      if f.mode == MessagesTuple && "messages" <= chunk.event && chunk.listed.Some? {
        PublishBodies(run, chunk.listed.value, true);
      } else if f.mode == Updates && Includes(chunk.event, "updates") && chunk.nested.Some? {
        PublishBodies(run, chunk.nested.value, false);
      } else {
        assert View().channel + Entries(run, f.session, []) == View().channel;
      }
    }

    method PublishBodies(run: nat, messages: seq<Message>, chunksOnly: bool)
      requires Valid() && run < |flights|
      modifies this`channel
      ensures Valid() && View() == Publish(old(View()), run, Bodies(messages, chunksOnly))
    {
      ghost var s := flights[run].session;
      assert messages[0..] == messages && Entries(run, s, []) == [];
      for i := 0 to |messages|
        invariant Valid()
        invariant channel + Entries(run, s, Bodies(messages[i..], chunksOnly)) == old(channel) + Entries(run, s, Bodies(messages, chunksOnly))
      {
        var message := messages[i];
        assert messages[i..][1..] == messages[i + 1..] && messages[i..][0] == message;
        ghost var rest := Bodies(messages[i + 1..], chunksOnly);
        if message.hasContent && (!chunksOnly || message.isChunk) {
          assert Entries(run, s, [Content(message.body)] + rest) == [Entry(run, s, Content(message.body))] + Entries(run, s, rest);
          channel := channel + [Entry(run, flights[run].session, Content(message.body))];
        } else {
          assert [] + rest == rest;
        }
      }
      assert messages[|messages|..] == [];
    }

    /** After the loop: the terminal frame, unless the run was aborted. */
    method OnStreamEnd(run: nat) returns (ok: bool)
      requires Valid() && run < |flights| && flights[run].phase in {Reading, Closing}
      modifies this`flights, this`channel, this`runs, this`table
      ensures Valid() && View() == Step(old(View()), StreamEnded(run))
      ensures ok <==> old(flights[run].streamError) == None || old(flights[run].streamError) == Some("")
    {
      var f := flights[run];
      var failed := f.streamError.Some? && f.streamError.value != "";
      if !f.controller.aborted {
        PublishFrame(run, if failed then Failed(f.streamError.value) else Complete);
      }
      FinallyClear(run);
      return !failed;
    }

    /** The catch block, for anything the stream threw. */
    method OnThrow(run: nat, message: string)
      requires Valid() && run < |flights| && flights[run].phase != Ended
      modifies this`flights, this`channel, this`runs, this`table
      ensures Valid() && View() == Step(old(View()), Threw(run, message))
    {
      if !flights[run].controller.aborted {
        PublishFrame(run, Failed(message));
      }
      FinallyClear(run);
    }
  }

  lemma SameControllers(a: seq<Flight>, b: seq<Flight>)
    requires |a| == |b| && forall i :: 0 <= i < |a| ==> a[i].controller == b[i].controller
    ensures (set f | f in a :: f.controller) == (set f | f in b :: f.controller)
  {
    forall f | f in a ensures f.controller in (set f | f in b :: f.controller) {
      var i :| 0 <= i < |a| && a[i] == f;
      assert b[i] in b;
    }
    forall f | f in b ensures f.controller in (set f | f in a :: f.controller) {
      var i :| 0 <= i < |b| && b[i] == f;
      assert a[i] in a;
    }
  }
}
