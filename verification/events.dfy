/**
 * The values that flow through the console log dump: the events a log source
 * delivers to the listener, the method bindings the listener keeps, and the
 * lines it prints.
 */
module LogEvents {

  datatype Option<+T> = None | Some(value: T)

  /** One decoded record of a profiler log, in file order. */
  datatype Event =
    | MethodEvent(methodId: int, className: string, methodName: string)
    | TraceStartEvent(threadId: int, frames: int)
    | StackFrameEvent(methodId: int, lineNumber: int)

  /** The class name and method name recorded for a method id. */
  datatype BoundMethod = BoundMethod(className: string, methodName: string)

  /**
   * One printed line, before formatting.
   * `spaces` is the number of indentation characters a stack-frame line carries;
   * `faulty` selects the trace-start label for a trace that declares no frames.
   */
  datatype Line =
    | MethodLine(id: int, cls: string, name: string)
    | TraceStartLine(faulty: bool, idx: int, tid: int, frames: int)
    | FrameRaw(spaces: nat, id: int, lineNumber: int)
    | FrameResolved(spaces: nat, cls: string, name: string, lineNumber: int)
    | SummaryLine(traces: int, faultyCount: int)

  /** A stack-frame line, printed raw or with its class and method name. */
  predicate IsFrameLine(l: Line)
  {
    l.FrameRaw? || l.FrameResolved?
  }

  /** The indentation a depth prints: a negative depth prints nothing. */
  function Indentation(depth: int): nat
  {
    if depth > 0 then depth else 0
  }
}
