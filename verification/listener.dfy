/**
 * The listener `run()` hands to the log source: it keeps an indentation depth,
 * a trace index, a fault counter and a table of method bindings, and writes one
 * line of text per event to its output stream.
 */
module ConsoleLogDump {
  import opened LogEvents
  import opened TextOutput
  import opened Reconstruction

  class LogDumpListener {
    var indent: int
    var traceIdx: int
    var errCount: int
    var methodNames: map<int, BoundMethod>

    /** Everything written to the output stream so far. */
    var out: string
    /** The same output as lines, before formatting. */
    ghost var lines: seq<Line>

    ghost predicate Valid()
      reads this
    {
      out == RenderAll(lines)
    }

    /** The four fields as one value. */
    function Snapshot(): State
      reads this
    {
      State(indent, traceIdx, errCount, methodNames)
    }

    constructor ()
      ensures Valid() && lines == []
      ensures Snapshot() == Initial
    {
      indent, traceIdx, errCount := 0, 0, 0;
      methodNames := map[];
      out := "";
      lines := [];
    }

    method Print(s: string)
      modifies this`out
      ensures out == old(out) + s
    {
      out := out + s;
    }

    /** One `printf` that writes a whole line. */
    method PrintLine(l: Line)
      requires Valid()
      modifies this`out, this`lines
      ensures Valid()
      ensures out == old(out) + Render(l) + "\n"
      ensures lines == old(lines) + [l]
    {
      Print(Render(l) + "\n");
      Emitted(l);
    }

    /**
     * The three writes of a stack-frame line: the label, `indent(out)` at the
     * current depth, and the frame's id or names with its line number.
     */
    method PrintFrame(l: Line)
      requires Valid()
      requires IsFrameLine(l) && l.spaces == Indentation(indent)
      modifies this`out, this`lines
      ensures Valid()
      ensures lines == old(lines) + [l]
    {
      PrintedFrame(out, l);
      Print("StackFrame: ");
      Indent();
      Print(FrameTail(l) + "\n");
      Emitted(l);
    }

    /** `indent(out)`: one space per level of the current depth, none when it is negative. */
    method Indent()
      modifies this`out
      ensures out == old(out) + Spaces(Indentation(indent))
    {
      var i := 0;
      while i < indent
        invariant 0 <= i <= Indentation(indent)
        invariant out == old(out) + Spaces(i)
      {
        assert Spaces(i + 1) == Spaces(i) + " ";
        Print(" ");
        i := i + 1;
      }
    }

    /** `handle(Method)`: records the binding, replacing any earlier one for the same id. */
    method HandleMethod(methodId: int, className: string, methodName: string)
      requires Valid()
      modifies this
      ensures Valid()
      ensures methodNames == old(methodNames)[methodId := BoundMethod(className, methodName)]
      ensures indent == old(indent) && traceIdx == old(traceIdx) && errCount == old(errCount)
      ensures lines == old(lines) + [MethodLine(methodId, className, methodName)]
    {
      var boundMethod := BoundMethod(className, methodName);
      PrintLine(MethodLine(methodId, className, methodName));
      methodNames := methodNames[methodId := boundMethod];
    }

    /**
     * `handle(StackFrame)`: lowers the depth, then prints the frame raw for the
     * null id 0 (counting it as faulty) or an id without a binding (not counting
     * it), and by class and method name otherwise.
     */
    method HandleStackFrame(methodId: int, lineNumber: int)
      requires Valid()
      modifies this
      ensures Valid()
      ensures indent == old(indent) - 1
      ensures traceIdx == old(traceIdx) && methodNames == old(methodNames)
      ensures errCount == if methodId == 0 then old(errCount) + 1 else old(errCount)
      ensures lines == old(lines) + [
        if methodId == 0 || methodId !in old(methodNames) then
          FrameRaw(Indentation(old(indent) - 1), methodId, lineNumber)
        else
          FrameResolved(Indentation(old(indent) - 1), old(methodNames)[methodId].className,
                        old(methodNames)[methodId].methodName, lineNumber)]
    {
      indent := indent - 1;
      var resolved := if methodId in methodNames then Some(methodNames[methodId]) else None;
      if methodId == 0 {
        errCount := errCount + 1;
        PrintFrame(FrameRaw(Indentation(indent), methodId, lineNumber));
      } else if resolved.None? {
        PrintFrame(FrameRaw(Indentation(indent), methodId, lineNumber));
      } else {
        var b := resolved.value;
        PrintFrame(FrameResolved(Indentation(indent), b.className, b.methodName, lineNumber));
      }
    }

    /**
     * `handle(TraceStart)`: prints the trace index before incrementing it, labels
     * a trace of zero or fewer frames as faulty and counts it, and sets the depth
     * to the declared frame count.
     */
    method HandleTraceStart(threadId: int, frames: int)
      requires Valid()
      modifies this
      ensures Valid()
      ensures indent == frames
      ensures traceIdx == old(traceIdx) + 1
      ensures errCount == if frames <= 0 then old(errCount) + 1 else old(errCount)
      ensures methodNames == old(methodNames)
      ensures lines == old(lines) + [TraceStartLine(frames <= 0, old(traceIdx), threadId, frames)]
    {
      if frames <= 0 {
        PrintLine(TraceStartLine(true, traceIdx, threadId, frames));
        errCount := errCount + 1;
      } else {
        PrintLine(TraceStartLine(false, traceIdx, threadId, frames));
      }
      indent := frames;
      traceIdx := traceIdx + 1;
    }

    /** `endOfLog`: prints how many traces were seen and how many records were faulty. */
    method EndOfLog()
      requires Valid()
      modifies this
      ensures Valid()
      ensures Snapshot() == old(Snapshot())
      ensures lines == old(lines) + [SummaryLine(traceIdx, errCount)]
    {
      PrintLine(SummaryLine(traceIdx, errCount));
    }

    /** The log source's dispatch: one handler per kind of event. */
    method Handle(e: Event)
      requires Valid()
      modifies this
      ensures Valid()
      ensures Snapshot() == Step(old(Snapshot()), e).state
      ensures lines == old(lines) + [Step(old(Snapshot()), e).line]
    {
      match e
      case MethodEvent(id, cls, name) => HandleMethod(id, cls, name);
      case TraceStartEvent(tid, frames) => HandleTraceStart(tid, frames);
      case StackFrameEvent(id, lineNumber) => HandleStackFrame(id, lineNumber);
    }

    /** Records that the text just printed is the rendering of `l`. */
    ghost method Emitted(l: Line)
      requires out == RenderAll(lines) + Render(l) + "\n"
      modifies this`lines
      ensures lines == old(lines) + [l]
      ensures Valid()
    {
      lines := lines + [l];
      RenderAllAppend(old(lines), l);
    }
  }

  /**
   * `run()` after the log was found: a fresh listener receives every event of
   * the log in order, then the end of the log; the result is the text it wrote.
   */
  method DumpLog(events: seq<Event>) returns (output: string)
    ensures output == RenderAll(Dump(events))
  {
    var listener := new LogDumpListener();
    var i := 0;
    while i < |events|
      invariant 0 <= i <= |events|
      invariant listener.Valid()
      invariant listener.Snapshot() == Replay(Initial, events[..i]).state
      invariant listener.lines == Replay(Initial, events[..i]).lines
    {
      assert events[..i + 1][..i] == events[..i];
      listener.Handle(events[i]);
      i := i + 1;
    }
    assert events[..i] == events;
    listener.EndOfLog();
    output := listener.out;
  }

  /** The text of a dump is the text of its event lines followed by the summary of its counts. */
  lemma DumpText(events: seq<Event>)
    ensures RenderAll(Dump(events))
         == RenderAll(Replay(Initial, events).lines)
            + Render(SummaryLine(CountTraceStarts(events),
                                 CountMalformedTraces(events) + CountNullFrames(events)))
            + "\n"
  {
    var p := Replay(Initial, events);
    RenderAllAppend(p.lines, SummaryLine(p.state.traceIdx, p.state.errCount));
  }

  /** A method record, a trace of two frames (one bound, one null), and the end of the log. */
  lemma ExampleDump()
    ensures Dump([MethodEvent(1, "com.example.Foo", "bar"), TraceStartEvent(7, 2),
                  StackFrameEvent(1, 10), StackFrameEvent(0, -1)])
         == [MethodLine(1, "com.example.Foo", "bar"), TraceStartLine(false, 0, 7, 2),
             FrameResolved(1, "com.example.Foo", "bar", 10), FrameRaw(0, 0, -1),
             SummaryLine(1, 1)]
  {
    var foo := BoundMethod("com.example.Foo", "bar");
    var events := [MethodEvent(1, "com.example.Foo", "bar"), TraceStartEvent(7, 2),
                   StackFrameEvent(1, 10), StackFrameEvent(0, -1)];
    assert events[..3][..2][..1][..0] == [];
    assert events[..3][..2] == events[..2] && events[..3][..2][..1] == events[..1];
    assert events[..4] == events && events[..4][..3] == events[..3];
    assert Replay(Initial, events[..1]) == Pass(State(0, 0, 0, map[1 := foo]), [MethodLine(1, foo.className, foo.methodName)]);
    assert Replay(Initial, events[..2]).state == State(2, 1, 0, map[1 := foo]);
    assert Replay(Initial, events[..3]).state == State(1, 1, 0, map[1 := foo]);
    assert Replay(Initial, events).state == State(0, 1, 1, map[1 := foo]);
  }

  /** The text of the example's method line. */
  lemma ExampleMethodText()
    ensures Render(MethodLine(1, "com.example.Foo", "bar"))
         == "Method   : " + "1" + " -> " + "com.example.Foo" + "." + "bar"
  {
    assert IntToDec(1) == "1";
  }

  /** The text of the example's trace start: a well-formed trace, labelled "TraceStartL". */
  lemma ExampleTraceStartText()
    ensures Render(TraceStartLine(false, 0, 7, 2))
         == "TraceStartL " + "[" + "0" + "] tid=" + "7" + ",frames=" + "2"
  {
    assert IntToDec(0) == "0" && IntToDec(2) == "2" && IntToDec(7) == "7";
  }

  /** The text of the example's resolved frame, at depth 1 and so indented by one space. */
  lemma ExampleResolvedFrameText()
    ensures Render(FrameResolved(1, "com.example.Foo", "bar", 10))
         == "StackFrame: " + " " + "com.example.Foo" + "::" + "bar" + " @ " + "10"
  {
    assert IntToDec(10) == "10" by {
      assert NatToDec(10) == NatToDec(1) + [DigitChar(0)];
    }
    assert Spaces(1) == " ";
  }

  /** The text of the example's null frame, at depth 0 and so not indented. */
  lemma ExampleRawFrameText()
    ensures Render(FrameRaw(0, 0, -1)) == "StackFrame: " + "" + "0" + " @ " + "-1"
  {
    assert IntToDec(0) == "0" && IntToDec(-1) == "-1";
    assert Spaces(0) == "";
  }

  /** The text of the example's summary. */
  lemma ExampleSummaryText()
    ensures Render(SummaryLine(1, 1)) == "Processed " + "1" + " traces, " + "1" + " faulty"
  {
    assert IntToDec(1) == "1";
  }
}
