# Console log dump of honest-profiler, in Dafny

honest-profiler's console log dump turns a recorded profiler log into text.
The decoded log arrives as an ordered stream of three kinds of event:

- method records, which bind a numeric method id to a class name and method name;
- trace starts, which open one sampled call stack and declare how many frames follow;
- stack frames, one per frame of the current trace.

An anonymous `LogEventListener` inside `ConsoleLogDumpApplication.run()` consumes the stream.
It keeps four fields: an indentation depth `indent`, a trace index `traceidx`, a fault counter `errCount` and a `methodNames` table.
It prints one line per event and, at the end of the log, a summary line.

The model has four modules:

- `LogEvents` (`events.dfy`): the event, binding (`BoundMethod`) and printed-line datatypes.
- `TextOutput` (`text_output.dfy`): the exact text of each printf format, including the labels "TraceStart:" and "TraceStartL".
  It also holds decimal rendering of numbers as `%d` writes them, with a parser proved to read every rendering back, and the indentation spaces.
- `Reconstruction` (`reconstruction.dfy`): the listener as a pure function.
  `Step` handles one event and `Replay` folds a whole stream.
  This module also proves the properties of a complete pass: trace and fault counts, the summary, last-write-wins bindings, which binding a frame resolves to, and indentation depths.
- `ConsoleLogDump` (`listener.dfy`): the listener itself, as class `LogDumpListener`.
  It has the same four fields and an output field `out` that the handlers append to, as the Java prints to its stream.
  A printf appends one whole line; a stack frame is written in three pieces: its label, the indentation, and its text.
  A ghost field `lines` holds the same output line by line.
  Each handler states its whole new state and is tied to `Step`; `indent(out)` keeps its counting loop.
  `DumpLog` feeds a fresh listener every event in order and then the end of the log, and its result is proved equal to the rendering of `Dump(events)`.
  The output is a function of the event sequence alone, so replaying a log through a fresh listener always produces identical text.

A later method record for the same id replaces the earlier one (`methodNames.put`, line 98: last write wins); `Reconstruction.BindingsAreLastDefinitions` states this.
The Java `BoundMethod` class (lines 147-154) is the datatype `LogEvents.BoundMethod`.

## Model

| member | source | states |
|---|---|---|
| `ConsoleLogDump.LogDumpListener.constructor` | src/main/java/com/insightfullogic/honest_profiler/ports/console/ConsoleLogDumpApplication.java:89-92 | a new listener has depth 0, trace index 0, fault count 0, no bindings and no output |
| `ConsoleLogDump.LogDumpListener.HandleMethod` | src/main/java/com/insightfullogic/honest_profiler/ports/console/ConsoleLogDumpApplication.java:94-99 | binds the id to (class, method), replacing any earlier binding; prints exactly one Method line; depth, trace index and fault count unchanged |
| `ConsoleLogDump.LogDumpListener.HandleStackFrame` | src/main/java/com/insightfullogic/honest_profiler/ports/console/ConsoleLogDumpApplication.java:101-120 | lowers the depth by exactly 1 with no clamping; prints max(depth, 0) spaces; prints id 0 raw and counts it faulty even when 0 is bound; prints an unbound nonzero id raw without counting it; prints a bound id as the binding current at that moment; trace index and bindings unchanged |
| `ConsoleLogDump.LogDumpListener.Indent` | src/main/java/com/insightfullogic/honest_profiler/ports/console/ConsoleLogDumpApplication.java:122-125 | the loop appends exactly max(indent, 0) spaces to the output |
| `ConsoleLogDump.LogDumpListener.HandleTraceStart` | src/main/java/com/insightfullogic/honest_profiler/ports/console/ConsoleLogDumpApplication.java:127-138 | prints the trace index from before the increment; frames <= 0 gives the faulty label and exactly one more fault, frames > 0 leaves the count alone; sets depth to frames; trace index + 1; bindings unchanged |
| `ConsoleLogDump.LogDumpListener.EndOfLog` | src/main/java/com/insightfullogic/honest_profiler/ports/console/ConsoleLogDumpApplication.java:140-143 | prints one summary line with the current trace index and fault count, changing no counter |
| `ConsoleLogDump.LogDumpListener.Handle` | src/main/java/com/insightfullogic/honest_profiler/ports/console/ConsoleLogDumpApplication.java:94-138 | dispatching an event changes the fields and output exactly as one `Step` of the pure model |
| `ConsoleLogDump.LogDumpListener.Print` | src/main/java/com/insightfullogic/honest_profiler/ports/console/ConsoleLogDumpApplication.java:108 | a `print` appends exactly its text to the output |
| `ConsoleLogDump.LogDumpListener.PrintLine` | src/main/java/com/insightfullogic/honest_profiler/ports/console/ConsoleLogDumpApplication.java:97 | one printf writes the whole text of a line and its newline to the output |
| `ConsoleLogDump.LogDumpListener.PrintFrame` | src/main/java/com/insightfullogic/honest_profiler/ports/console/ConsoleLogDumpApplication.java:108-118 | the label, the indentation at the current depth and the frame's text together write exactly the rendering of the frame line |
| `ConsoleLogDump.DumpText` | src/main/java/com/insightfullogic/honest_profiler/ports/console/ConsoleLogDumpApplication.java:140-143 | the dumped text is the event lines' text followed by the summary of the trace-start count and the faulty-record count |
| `ConsoleLogDump.DumpLog` | src/main/java/com/insightfullogic/honest_profiler/ports/console/ConsoleLogDumpApplication.java:88-144 | a fresh listener fed the whole log prints exactly the rendering of `Dump(events)`: one line per event, then the summary (whose counts `DumpText` and `Reconstruction.Dump` give) |
| `Reconstruction.Step` | src/main/java/com/insightfullogic/honest_profiler/ports/console/ConsoleLogDumpApplication.java:94-138 | one event: only a trace start advances the trace index; the fault count grows by one exactly for a trace with frames <= 0 or a frame with id 0; exactly a stack frame prints a frame line; a method record leaves the depth alone; no event removes a binding |
| `Reconstruction.Replay` | src/main/java/com/insightfullogic/honest_profiler/ports/console/ConsoleLogDumpApplication.java:94-138 | a stream of events prints exactly one line per event |
| `Reconstruction.ReplayLineAt` | src/main/java/com/insightfullogic/honest_profiler/ports/console/ConsoleLogDumpApplication.java:94-138 | the k-th line is what the k-th event prints in the state left by the events before it |
| `Reconstruction.ReplayAppend` | src/main/java/com/insightfullogic/honest_profiler/ports/console/ConsoleLogDumpApplication.java:88-138 | handling a stream in two parts gives the state and lines of handling the second part from the state the first part leaves, so the trace lemmas apply to a trace anywhere in a log |
| `Reconstruction.TraceIndexCountsTraceStarts` | src/main/java/com/insightfullogic/honest_profiler/ports/console/ConsoleLogDumpApplication.java:136-137 | after any stream the trace index has grown by exactly the number of trace starts in it |
| `Reconstruction.FaultCountCountsFaultyRecords` | src/main/java/com/insightfullogic/honest_profiler/ports/console/ConsoleLogDumpApplication.java:102-132 | after any stream the fault count has grown by exactly the number of trace starts with frames <= 0 plus the number of frames with id 0 |
| `Reconstruction.Dump` | src/main/java/com/insightfullogic/honest_profiler/ports/console/ConsoleLogDumpApplication.java:140-143 | a fresh listener prints one line per event, those of the replay in order, and then the summary, which reports the number of trace starts and the number of trace starts with frames <= 0 plus frames with id 0 |
| `Reconstruction.BindingsAreLastDefinitions` | src/main/java/com/insightfullogic/honest_profiler/ports/console/ConsoleLogDumpApplication.java:95-99 | after a stream each id is bound to its most recent method record (last write wins), or keeps its earlier binding if the stream has none |
| `Reconstruction.BindingsNeverShrink` | src/main/java/com/insightfullogic/honest_profiler/ports/console/ConsoleLogDumpApplication.java:92-98 | no event removes a binding |
| `Reconstruction.TraceStartLineAt` | src/main/java/com/insightfullogic/honest_profiler/ports/console/ConsoleLogDumpApplication.java:127-137 | a trace start prints, as its index, the number of trace starts before it (from 0), and is labelled faulty exactly when frames <= 0 |
| `Reconstruction.StackFrameLineAt` | src/main/java/com/insightfullogic/honest_profiler/ports/console/ConsoleLogDumpApplication.java:101-120 | a frame prints raw exactly when its id is 0 or has no earlier method record; otherwise it prints the names of the most recent earlier record for its id, so frames before a late binding stay raw; the line number is always kept |
| `Reconstruction.StackFrameStep` | src/main/java/com/insightfullogic/honest_profiler/ports/console/ConsoleLogDumpApplication.java:102-120 | a frame lowers the depth by 1, prints max(depth, 0) spaces, adds a fault only for id 0, and leaves trace index and bindings alone |
| `Reconstruction.DepthAfter` | src/main/java/com/insightfullogic/honest_profiler/ports/console/ConsoleLogDumpApplication.java:102-136 | after a trace start declaring n frames, the depth is n minus the number of frames since, whatever method records fall between them, and can go negative |
| `Reconstruction.FrameDepthAt` | src/main/java/com/insightfullogic/honest_profiler/ports/console/ConsoleLogDumpApplication.java:101-125 | a frame that is the m-th frame after a trace start declaring n frames prints max(n-m, 0) spaces |
| `Reconstruction.FrameDepths` | src/main/java/com/insightfullogic/honest_profiler/ports/console/ConsoleLogDumpApplication.java:101-137 | after a trace start declaring n frames, with method records allowed between the frames, the m-th following frame prints max(n-m, 0) spaces, and the depth ends at n minus the number of frames, so it can go negative |
| `Reconstruction.FrameDepthsInLog` | src/main/java/com/insightfullogic/honest_profiler/ports/console/ConsoleLogDumpApplication.java:88-137 | in a log replayed from a fresh listener, whatever events precede a trace start declaring n frames, its m-th following frame prints max(n-m, 0) spaces and the depth ends at n minus its number of frames |
| `Reconstruction.WellFormedTraceCountsDown` | src/main/java/com/insightfullogic/honest_profiler/ports/console/ConsoleLogDumpApplication.java:101-138 | a trace of n > 0 frames whose events up to the next trace start hold exactly n frames, with method records allowed between them, prints the "TraceStartL" line and then its frames at depths n-1, ..., 0 in order, leaving the depth at 0 |
| `Reconstruction.InterleavedTraceExample` | src/main/java/com/insightfullogic/honest_profiler/ports/console/ConsoleLogDumpApplication.java:94-125 | a trace of 2 frames with a method record before each frame prints both frames resolved, at depths 1 and 0 |
| `TextOutput.RenderedLabel` | src/main/java/com/insightfullogic/honest_profiler/ports/console/ConsoleLogDumpApplication.java:95-143 | each line starts with its label: "Method   : ", "StackFrame: ", "Processed ", and "TraceStart: " for a faulty trace versus "TraceStartL " for a well-formed one |
| `TextOutput.TraceStartLabel` | src/main/java/com/insightfullogic/honest_profiler/ports/console/ConsoleLogDumpApplication.java:130-135 | the two trace-start labels have the same width of 12 and differ only after "TraceStart", a colon exactly for a trace with frames <= 0 |
| `TextOutput.FrameIndentation` | src/main/java/com/insightfullogic/honest_profiler/ports/console/ConsoleLogDumpApplication.java:106-125 | a frame line carries exactly its indentation in spaces after the label, and a raw frame's id does not start with a space |
| `TextOutput.RawFrameText` | src/main/java/com/insightfullogic/honest_profiler/ports/console/ConsoleLogDumpApplication.java:110-114 | the raw "id @ line" text is non-empty and does not start with a space |
| `TextOutput.IntToDec` | src/main/java/com/insightfullogic/honest_profiler/ports/console/ConsoleLogDumpApplication.java:97 | `%d` prints a non-empty string with a minus sign exactly for negative values, "0" for zero and no leading zero otherwise; with `TextOutput.IntToDecRoundTrip` this fixes the text to the canonical decimal digits |
| `TextOutput.IntToDecRoundTrip` | src/main/java/com/insightfullogic/honest_profiler/ports/console/ConsoleLogDumpApplication.java:131 | every number `%d` prints reads back as the same number |
| `ConsoleLogDump.ExampleDump` | src/main/java/com/insightfullogic/honest_profiler/ports/console/ConsoleLogDumpApplication.java:88-144 | a bound method, a 2-frame trace with a bound frame and a null frame give: a Method line, trace index 0 well-formed, the bound frame resolved at depth 1, the null frame raw at depth 0, summary 1 trace and 1 faulty |
| `ConsoleLogDump.ExampleMethodText` | src/main/java/com/insightfullogic/honest_profiler/ports/console/ConsoleLogDumpApplication.java:97 | the example's method line is `Method   : 1 -> com.example.Foo.bar` (stated as the concatenation of its pieces) |
| `ConsoleLogDump.ExampleTraceStartText` | src/main/java/com/insightfullogic/honest_profiler/ports/console/ConsoleLogDumpApplication.java:134 | the example's trace start is `TraceStartL [0] tid=7,frames=2` |
| `ConsoleLogDump.ExampleResolvedFrameText` | src/main/java/com/insightfullogic/honest_profiler/ports/console/ConsoleLogDumpApplication.java:116-118 | the example's bound frame is `StackFrame:  com.example.Foo::bar @ 10`, with one space of indentation |
| `ConsoleLogDump.ExampleRawFrameText` | src/main/java/com/insightfullogic/honest_profiler/ports/console/ConsoleLogDumpApplication.java:106-110 | the example's null frame is `StackFrame: 0 @ -1`, without indentation |
| `ConsoleLogDump.ExampleSummaryText` | src/main/java/com/insightfullogic/honest_profiler/ports/console/ConsoleLogDumpApplication.java:142 | the example's summary is `Processed 1 traces, 1 faulty` |

## Left out

- `main`, the args4j option parsing and the usage message (lines 51-76): command-line plumbing.
- The check that the log file exists and is readable, its error message, and the banner line (lines 79-86): file-system I/O before any event is handled.
- `Monitor.consumeFile` and `FileLogSource` (line 88): binary decoding and event delivery are not part of this model. `DumpLog` takes the decoded events as a sequence and delivers them in order, followed by the end of the log.
- `PrintStream` and `Console`: the output stream is modelled as the string field `out`, and each `print`/`printf` call appends its text to it. `printf` formats `%d` with the default locale; the model always prints ASCII digits and a '-' sign, which is what a locale with ASCII digits prints.
- `%s` for the line number: the model takes the line number as an integer and prints it in decimal, which is what `%s` prints for an integer.
- Java `int`/`long` overflow of `indent`, `traceidx` and `errCount`: the model uses unbounded integers.
- Null class or method names from a method record: not modelled; names are plain strings.
