/**
 * The listener's behaviour as a pure function of the events it has seen:
 * one step per event, a replay of a whole event stream, and the properties
 * that hold of a complete pass (trace and fault counts, indentation depths,
 * which binding a stack frame resolves to).
 */
module Reconstruction {
  import opened LogEvents

  /** The listener's four fields. */
  datatype State = State(indent: int, traceIdx: int, errCount: int, methodNames: map<int, BoundMethod>)

  /** A freshly created listener: zero counters and no bindings. */
  const Initial: State := State(0, 0, 0, map[])

  /** The state after one event, and the one line that event prints. */
  datatype StepResult = StepResult(state: State, line: Line)

  /** A record the listener counts as faulty: a trace declaring no frames, or a frame with the null id 0. */
  predicate Faulty(e: Event)
  {
    (e.TraceStartEvent? && e.frames <= 0) || (e.StackFrameEvent? && e.methodId == 0)
  }

  /**
   * One handler call: `handle(Method)`, `handle(TraceStart)` or `handle(StackFrame)`.
   * Only a trace start advances the trace index, only a faulty record is counted,
   * exactly the stack frames print frame lines, and no event removes a binding.
   */
  function Step(s: State, e: Event): (r: StepResult)
    ensures r.state.traceIdx == s.traceIdx + (if e.TraceStartEvent? then 1 else 0)
    ensures r.state.errCount == s.errCount + (if Faulty(e) then 1 else 0)
    ensures IsFrameLine(r.line) <==> e.StackFrameEvent?
    ensures e.MethodEvent? ==> r.state.indent == s.indent
    ensures s.methodNames.Keys <= r.state.methodNames.Keys
  {
    match e
    case MethodEvent(id, cls, name) =>
      StepResult(s.(methodNames := s.methodNames[id := BoundMethod(cls, name)]), MethodLine(id, cls, name))
    case TraceStartEvent(tid, frames) =>
      var faulty := frames <= 0;
      StepResult(
        s.(indent := frames, traceIdx := s.traceIdx + 1,
           errCount := if faulty then s.errCount + 1 else s.errCount),
        TraceStartLine(faulty, s.traceIdx, tid, frames))
    case StackFrameEvent(id, lineNumber) =>
      var depth := s.indent - 1;
      if id == 0 then
        StepResult(s.(indent := depth, errCount := s.errCount + 1),
                   FrameRaw(Indentation(depth), id, lineNumber))
      else if id !in s.methodNames then
        StepResult(s.(indent := depth), FrameRaw(Indentation(depth), id, lineNumber))
      else
        var b := s.methodNames[id];
        StepResult(s.(indent := depth), FrameResolved(Indentation(depth), b.className, b.methodName, lineNumber))
  }

  /** The state after a stream of events and the lines they printed, one per event. */
  datatype Pass = Pass(state: State, lines: seq<Line>)

  function Replay(s: State, events: seq<Event>): (p: Pass)
    ensures |p.lines| == |events|
    decreases |events|
  {
    if events == [] then Pass(s, [])
    else
      var before := Replay(s, events[..|events| - 1]);
      var r := Step(before.state, events[|events| - 1]);
      Pass(r.state, before.lines + [r.line])
  }


  // ---------------------------------------------------------------------------
  // Reference counts over an event stream

  function CountTraceStarts(events: seq<Event>): nat
    decreases |events|
  {
    if events == [] then 0
    else CountTraceStarts(events[..|events| - 1]) + (if events[|events| - 1].TraceStartEvent? then 1 else 0)
  }

  /** Trace starts that declare zero or fewer frames. */
  function CountMalformedTraces(events: seq<Event>): nat
    decreases |events|
  {
    if events == [] then 0
    else
      var e := events[|events| - 1];
      CountMalformedTraces(events[..|events| - 1]) + (if e.TraceStartEvent? && e.frames <= 0 then 1 else 0)
  }

  /** Stack frames that carry the null method id 0. */
  function CountNullFrames(events: seq<Event>): nat
    decreases |events|
  {
    if events == [] then 0
    else
      var e := events[|events| - 1];
      CountNullFrames(events[..|events| - 1]) + (if e.StackFrameEvent? && e.methodId == 0 then 1 else 0)
  }

  /** The most recent method record for `id` in the stream, if any. */
  function LastDefinition(events: seq<Event>, id: int): Option<BoundMethod>
    decreases |events|
  {
    if events == [] then None
    else
      var e := events[|events| - 1];
      if e.MethodEvent? && e.methodId == id then Some(BoundMethod(e.className, e.methodName))
      else LastDefinition(events[..|events| - 1], id)
  }

  function Lookup(m: map<int, BoundMethod>, id: int): Option<BoundMethod>
  {
    if id in m then Some(m[id]) else None
  }

  // ---------------------------------------------------------------------------
  // Lines of a pass, one at a time

  /** The k-th line is what the k-th event prints in the state the events before it left. */
  lemma {:induction false} ReplayLineAt(s: State, events: seq<Event>, k: nat)
    requires k < |events|
    ensures Replay(s, events).lines[k] == Step(Replay(s, events[..k]).state, events[k]).line
    decreases |events|
  {
    var init := events[..|events| - 1];
    if k == |events| - 1 {
      assert events[..k] == init;
    } else {
      ReplayLineAt(s, init, k);
      assert init[..k] == events[..k];
    }
  }

  // ---------------------------------------------------------------------------
  // Counters over a whole pass

  /** Every trace start, and nothing else, advances the trace index by one. */
  lemma {:induction false} TraceIndexCountsTraceStarts(s: State, events: seq<Event>)
    ensures Replay(s, events).state.traceIdx == s.traceIdx + CountTraceStarts(events)
    decreases |events|
  {
    if events != [] {
      TraceIndexCountsTraceStarts(s, events[..|events| - 1]);
    }
  }

  /** The fault counter counts malformed traces and null-method frames, and nothing else. */
  lemma {:induction false} FaultCountCountsFaultyRecords(s: State, events: seq<Event>)
    ensures Replay(s, events).state.errCount
         == s.errCount + CountMalformedTraces(events) + CountNullFrames(events)
    decreases |events|
  {
    if events != [] {
      FaultCountCountsFaultyRecords(s, events[..|events| - 1]);
    }
  }

  /**
   * Everything a fresh listener prints for a log: one line per event, then the
   * summary `endOfLog` prints, which reports the number of trace starts and the
   * number of faulty records.
   */
  function Dump(events: seq<Event>): (ls: seq<Line>)
    ensures |ls| == |events| + 1
    ensures ls[..|events|] == Replay(Initial, events).lines
    ensures ls[|events|]
         == SummaryLine(CountTraceStarts(events), CountMalformedTraces(events) + CountNullFrames(events))
  {
    var p := Replay(Initial, events);
    TraceIndexCountsTraceStarts(Initial, events);
    FaultCountCountsFaultyRecords(Initial, events);
    p.lines + [SummaryLine(p.state.traceIdx, p.state.errCount)]
  }

  // ---------------------------------------------------------------------------
  // Method bindings

  /**
   * After a pass, each id is bound to its most recent method record (last write
   * wins); an id the pass never defined keeps the binding it had before.
   */
  lemma {:induction false} BindingsAreLastDefinitions(s: State, events: seq<Event>, id: int)
    ensures Lookup(Replay(s, events).state.methodNames, id)
         == match LastDefinition(events, id)
            case Some(b) => Some(b)
            case None => Lookup(s.methodNames, id)
    decreases |events|
  {
    if events != [] {
      BindingsAreLastDefinitions(s, events[..|events| - 1], id);
    }
  }

  /** The binding table only grows. */
  lemma BindingsNeverShrink(s: State, events: seq<Event>)
    ensures s.methodNames.Keys <= Replay(s, events).state.methodNames.Keys
  {
    forall id | id in s.methodNames
      ensures id in Replay(s, events).state.methodNames
    {
      BindingsAreLastDefinitions(s, events, id);
    }
  }

  // ---------------------------------------------------------------------------
  // Lines of a pass from a fresh listener

  /**
   * A trace start prints, as its index, the number of trace starts before it
   * (the index before the post-increment, counting from 0), and is labelled
   * faulty exactly when it declares zero or fewer frames.
   */
  lemma TraceStartLineAt(events: seq<Event>, k: nat)
    requires k < |events| && events[k].TraceStartEvent?
    ensures Replay(Initial, events).lines[k]
         == TraceStartLine(events[k].frames <= 0, CountTraceStarts(events[..k]),
                           events[k].threadId, events[k].frames)
  {
    ReplayLineAt(Initial, events, k);
    TraceIndexCountsTraceStarts(Initial, events[..k]);
  }

  /**
   * A stack frame prints raw (its numeric id) when its id is the null id 0 or has
   * no method record before it, even when 0 has one; otherwise it prints the
   * class and method name of the most recent record for its id before it.
   */
  lemma StackFrameLineAt(events: seq<Event>, k: nat)
    requires k < |events| && events[k].StackFrameEvent?
    ensures var l := Replay(Initial, events).lines[k];
            var id := events[k].methodId;
            && IsFrameLine(l)
            && l.lineNumber == events[k].lineNumber
            && (l.FrameRaw? <==> id == 0 || LastDefinition(events[..k], id).None?)
            && (l.FrameRaw? ==> l.id == id)
            && (l.FrameResolved? ==>
                  LastDefinition(events[..k], id) == Some(BoundMethod(l.cls, l.name)))
  {
    ReplayLineAt(Initial, events, k);
    BindingsAreLastDefinitions(Initial, events[..k], events[k].methodId);
  }

  /**
   * A frame lowers the depth by exactly one before printing, prints that depth
   * (no indentation when it is negative), changes the fault counter only for the
   * null id, and leaves the trace index and the bindings alone.
   */
  lemma StackFrameStep(s: State, id: int, lineNumber: int)
    ensures var r := Step(s, StackFrameEvent(id, lineNumber));
            && r.state.indent == s.indent - 1
            && r.state.traceIdx == s.traceIdx
            && r.state.methodNames == s.methodNames
            && r.state.errCount == (if id == 0 then s.errCount + 1 else s.errCount)
            && IsFrameLine(r.line)
            && r.line.spaces == Indentation(s.indent - 1)
  {
  }

  // ---------------------------------------------------------------------------
  // Indentation within a trace

  /** Stack frames in the stream. */
  function CountFrames(events: seq<Event>): nat
    decreases |events|
  {
    if events == [] then 0
    else CountFrames(events[..|events| - 1]) + (if events[|events| - 1].StackFrameEvent? then 1 else 0)
  }

  lemma {:induction false} CountFramesPrefix(events: seq<Event>, i: nat)
    requires i <= |events|
    ensures CountFrames(events[..i]) <= CountFrames(events)
    decreases |events|
  {
    if i < |events| {
      CountFramesPrefix(events[..|events| - 1], i);
      assert events[..|events| - 1][..i] == events[..i];
    } else {
      assert events[..i] == events;
    }
  }

  /** The events of one trace after its start: frames, with method records possibly between them. */
  predicate NoTraceStarts(events: seq<Event>)
  {
    forall k :: 0 <= k < |events| ==> !events[k].TraceStartEvent?
  }

  /**
   * After a trace start declaring `n` frames, the depth is n minus the number of
   * frames seen since; method records leave it alone and it is never clamped.
   */
  lemma {:induction false} DepthAfter(s: State, tid: int, n: int, rest: seq<Event>)
    requires NoTraceStarts(rest)
    ensures Replay(s, [TraceStartEvent(tid, n)] + rest).state.indent == n - CountFrames(rest)
    decreases |rest|
  {
    var start := [TraceStartEvent(tid, n)];
    if rest == [] {
      assert start + rest == start;
    } else {
      var init := rest[..|rest| - 1];
      var last := rest[|rest| - 1];
      assert NoTraceStarts(init) by {
        forall k | 0 <= k < |init| ensures !init[k].TraceStartEvent? {
          assert init[k] == rest[k];
        }
      }
      DepthAfter(s, tid, n, init);
      assert start + rest == (start + init) + [last];
      ReplaySnoc(s, start + init, last);
      assert !last.TraceStartEvent?;
    }
  }

  /** The frame at position j after a trace start is printed at the depth its ordinal leaves. */
  lemma FrameDepthAt(s: State, tid: int, n: int, rest: seq<Event>, j: nat)
    requires NoTraceStarts(rest) && j < |rest| && rest[j].StackFrameEvent?
    ensures var p := Replay(s, [TraceStartEvent(tid, n)] + rest);
            IsFrameLine(p.lines[j + 1]) && p.lines[j + 1].spaces == Indentation(n - CountFrames(rest[..j + 1]))
  {
    var start := [TraceStartEvent(tid, n)];
    var all := start + rest;
    var before := rest[..j];
    ReplayLineAt(s, all, j + 1);
    assert all[..j + 1] == start + before;
    assert all[j + 1] == rest[j];
    assert NoTraceStarts(before) by {
      forall k | 0 <= k < |before| ensures !before[k].TraceStartEvent? {
        assert before[k] == rest[k];
      }
    }
    DepthAfter(s, tid, n, before);
    StackFrameStep(Replay(s, start + before).state, rest[j].methodId, rest[j].lineNumber);
    assert rest[..j + 1][..j] == before;
  }

  /**
   * After a trace start declaring `n` frames, a frame that is the m-th frame
   * after it is printed at depth n-m, or with no indentation once that depth is
   * negative; method records in between leave the depth alone. The depth ends at
   * n minus the number of frames and is never clamped.
   */
  lemma FrameDepths(s: State, tid: int, n: int, rest: seq<Event>)
    requires NoTraceStarts(rest)
    ensures var p := Replay(s, [TraceStartEvent(tid, n)] + rest);
            && p.state.indent == n - CountFrames(rest)
            && forall j :: 0 <= j < |rest| && rest[j].StackFrameEvent? ==>
                 IsFrameLine(p.lines[j + 1])
                 && p.lines[j + 1].spaces == Indentation(n - CountFrames(rest[..j + 1]))
  {
    DepthAfter(s, tid, n, rest);
    forall j | 0 <= j < |rest| && rest[j].StackFrameEvent?
      ensures var p := Replay(s, [TraceStartEvent(tid, n)] + rest);
              IsFrameLine(p.lines[j + 1])
              && p.lines[j + 1].spaces == Indentation(n - CountFrames(rest[..j + 1]))
    {
      FrameDepthAt(s, tid, n, rest, j);
    }
  }

  /**
   * Replaying a stream in two parts is replaying the second part from the state
   * the first part leaves, so properties proved from an arbitrary state apply to
   * any stretch of a log replayed from a fresh listener.
   */
  lemma {:induction false} ReplayAppend(s: State, a: seq<Event>, b: seq<Event>)
    ensures Replay(s, a + b).state == Replay(Replay(s, a).state, b).state
    ensures Replay(s, a + b).lines == Replay(s, a).lines + Replay(Replay(s, a).state, b).lines
    decreases |b|
  {
    if b == [] {
      assert a + b == a;
    } else {
      var init := b[..|b| - 1];
      var last := b[|b| - 1];
      ReplayAppend(s, a, init);
      assert a + b == (a + init) + [last];
      ReplaySnoc(s, a + init, last);
    }
  }

  /** Replaying one more event is one more step after the replay of the events before it. */
  lemma ReplaySnoc(s: State, events: seq<Event>, e: Event)
    ensures var before := Replay(s, events);
            var r := Step(before.state, e);
            Replay(s, events + [e]) == Pass(r.state, before.lines + [r.line])
  {
    assert (events + [e])[..|events|] == events;
  }

  /**
   * The frame depths of a trace hold wherever the trace sits in a log replayed
   * from a fresh listener, whatever the events before it.
   */
  lemma FrameDepthsInLog(before: seq<Event>, tid: int, n: int, rest: seq<Event>)
    requires NoTraceStarts(rest)
    ensures var p := Replay(Initial, before + ([TraceStartEvent(tid, n)] + rest));
            && p.state.indent == n - CountFrames(rest)
            && forall j :: 0 <= j < |rest| && rest[j].StackFrameEvent? ==>
                 IsFrameLine(p.lines[|before| + j + 1])
                 && p.lines[|before| + j + 1].spaces == Indentation(n - CountFrames(rest[..j + 1]))
  {
    DepthInLog(before, tid, n, rest);
    forall j | 0 <= j < |rest| && rest[j].StackFrameEvent?
      ensures var p := Replay(Initial, before + ([TraceStartEvent(tid, n)] + rest));
              IsFrameLine(p.lines[|before| + j + 1])
              && p.lines[|before| + j + 1].spaces == Indentation(n - CountFrames(rest[..j + 1]))
    {
      FrameDepthInLogAt(before, tid, n, rest, j);
    }
  }

  /** The depth after a trace in a log replayed from a fresh listener. */
  lemma DepthInLog(before: seq<Event>, tid: int, n: int, rest: seq<Event>)
    requires NoTraceStarts(rest)
    ensures Replay(Initial, before + ([TraceStartEvent(tid, n)] + rest)).state.indent == n - CountFrames(rest)
  {
    ReplayAppend(Initial, before, [TraceStartEvent(tid, n)] + rest);
    DepthAfter(Replay(Initial, before).state, tid, n, rest);
  }

  /** One frame of a trace in a log replayed from a fresh listener. */
  lemma FrameDepthInLogAt(before: seq<Event>, tid: int, n: int, rest: seq<Event>, j: nat)
    requires NoTraceStarts(rest) && j < |rest| && rest[j].StackFrameEvent?
    ensures var p := Replay(Initial, before + ([TraceStartEvent(tid, n)] + rest));
            IsFrameLine(p.lines[|before| + j + 1])
            && p.lines[|before| + j + 1].spaces == Indentation(n - CountFrames(rest[..j + 1]))
  {
    var trace := [TraceStartEvent(tid, n)] + rest;
    var s := Replay(Initial, before).state;
    ReplayAppend(Initial, before, trace);
    FrameDepthAt(s, tid, n, rest, j);
    LineAfter(Replay(Initial, before).lines, Replay(s, trace).lines, j + 1);
  }

  lemma LineAfter(head: seq<Line>, tail: seq<Line>, k: nat)
    requires k < |tail|
    ensures (head + tail)[|head| + k] == tail[k]
  {
  }

  /**
   * A well-formed trace of n > 0 frames whose events up to the next trace start
   * hold exactly n frames prints the "TraceStartL" line and then its frames at
   * depths n-1, n-2, ..., 0 in order, and leaves the depth at 0.
   */
  lemma WellFormedTraceCountsDown(s: State, tid: int, n: int, rest: seq<Event>)
    requires n > 0 && NoTraceStarts(rest) && CountFrames(rest) == n
    ensures var p := Replay(s, [TraceStartEvent(tid, n)] + rest);
            && p.state.indent == 0
            && p.lines[0] == TraceStartLine(false, s.traceIdx, tid, n)
            && forall j :: 0 <= j < |rest| && rest[j].StackFrameEvent? ==>
                 var m := CountFrames(rest[..j + 1]);
                 IsFrameLine(p.lines[j + 1]) && 1 <= m <= n && p.lines[j + 1].spaces == n - m
  {
    var all := [TraceStartEvent(tid, n)] + rest;
    var p := Replay(s, all);
    FrameDepths(s, tid, n, rest);
    TraceStartFirst(s, tid, n, rest);
    forall j | 0 <= j < |rest| && rest[j].StackFrameEvent?
      ensures var m := CountFrames(rest[..j + 1]);
              IsFrameLine(p.lines[j + 1]) && 1 <= m <= n && p.lines[j + 1].spaces == n - m
    {
      FrameOrdinal(rest, j);
    }
  }

  /** The first line of a trace is its trace-start line, with the index the listener had before it. */
  lemma TraceStartFirst(s: State, tid: int, n: int, rest: seq<Event>)
    ensures Replay(s, [TraceStartEvent(tid, n)] + rest).lines[0] == TraceStartLine(n <= 0, s.traceIdx, tid, n)
  {
    var all := [TraceStartEvent(tid, n)] + rest;
    ReplayLineAt(s, all, 0);
    assert all[..0] == [];
  }

  /** A frame's ordinal among the frames of a stream lies between 1 and their number. */
  lemma FrameOrdinal(events: seq<Event>, j: nat)
    requires j < |events| && events[j].StackFrameEvent?
    ensures 1 <= CountFrames(events[..j + 1]) <= CountFrames(events)
  {
    CountFramesPrefix(events, j + 1);
    assert events[..j + 1][..j] == events[..j];
  }

  /** Method records between the frames of a trace: the frames still print depths 1 and 0. */
  lemma InterleavedTraceExample()
    ensures var p := Replay(Initial, [TraceStartEvent(7, 2), MethodEvent(1, "A", "f"), StackFrameEvent(1, 10),
                                      MethodEvent(2, "B", "g"), StackFrameEvent(2, 5)]);
            && p.lines[2] == FrameResolved(1, "A", "f", 10)
            && p.lines[4] == FrameResolved(0, "B", "g", 5)
            && p.state.indent == 0
  {
    var events := [TraceStartEvent(7, 2), MethodEvent(1, "A", "f"), StackFrameEvent(1, 10),
                   MethodEvent(2, "B", "g"), StackFrameEvent(2, 5)];
    var f := BoundMethod("A", "f");
    var g := BoundMethod("B", "g");
    assert events[..1][..0] == [];
    assert events[..2][..1] == events[..1] && events[..3][..2] == events[..2];
    assert events[..4][..3] == events[..3] && events[..5] == events && events[..5][..4] == events[..4];
    assert Replay(Initial, events[..1]).state == State(2, 1, 0, map[]);
    assert Replay(Initial, events[..2]).state == State(2, 1, 0, map[1 := f]);
    assert Replay(Initial, events[..3]).state == State(1, 1, 0, map[1 := f]);
    assert Replay(Initial, events[..4]).state == State(1, 1, 0, map[1 := f, 2 := g]);
  }
}
