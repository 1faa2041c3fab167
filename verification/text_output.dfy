/**
 * The exact text the listener prints: the printf formats of each handler,
 * decimal rendering of numbers as `%d` does it, and the indentation spaces.
 */
module TextOutput {
  import opened LogEvents

  function DigitChar(d: nat): char
    requires d < 10
  {
    ('0' as int + d) as char
  }

  function DigitValue(c: char): Option<nat>
  {
    if '0' <= c <= '9' then Some(c as int - '0' as int) else None
  }

  predicate IsDigit(c: char)
  {
    '0' <= c <= '9'
  }

  /** Decimal digits of a natural number, most significant first, no leading zeros. */
  function NatToDec(n: nat): (s: string)
    ensures |s| > 0 && IsDigit(s[0])
    ensures n > 0 ==> s[0] != '0'
    decreases n
  {
    if n < 10 then [DigitChar(n)] else NatToDec(n / 10) + [DigitChar(n % 10)]
  }

  /** What `%d` prints for an integer: a minus sign before negative values. */
  function IntToDec(i: int): (s: string)
    ensures |s| > 0 && (s[0] == '-' || IsDigit(s[0]))
    ensures s[0] == '-' <==> i < 0
    ensures i == 0 ==> s == "0"
    ensures i > 0 ==> s[0] != '0'
    ensures i < 0 ==> |s| > 1 && s[1] != '0'
  {
    if i < 0 then "-" + NatToDec(-i) else NatToDec(i)
  }

  /** Reads back a string of decimal digits. */
  function ParseNat(s: string): Option<nat>
    decreases |s|
  {
    if |s| == 0 then None
    else
      match DigitValue(s[|s| - 1])
      case None => None
      case Some(d) =>
        if |s| == 1 then Some(d)
        else
          match ParseNat(s[..|s| - 1])
          case None => None
          case Some(m) => Some(10 * m + d)
  }

  /** Reads back an optionally signed decimal number. */
  function ParseDec(s: string): Option<int>
  {
    if |s| > 0 && s[0] == '-' then
      match ParseNat(s[1..])
      case None => None
      case Some(n) => Some(-(n as int))
    else
      match ParseNat(s)
      case None => None
      case Some(n) => Some(n as int)
  }

  lemma {:induction false} NatToDecRoundTrip(n: nat)
    ensures ParseNat(NatToDec(n)) == Some(n)
    decreases n
  {
    if n >= 10 {
      var s := NatToDec(n);
      assert s[..|s| - 1] == NatToDec(n / 10);
      assert s[|s| - 1] == DigitChar(n % 10);
      NatToDecRoundTrip(n / 10);
    }
  }

  /** Every number `%d` prints reads back as the same number. */
  lemma IntToDecRoundTrip(i: int)
    ensures ParseDec(IntToDec(i)) == Some(i)
  {
    if i < 0 {
      assert IntToDec(i)[1..] == NatToDec(-i);
      NatToDecRoundTrip(-i);
    } else {
      NatToDecRoundTrip(i);
    }
  }

  /** The indentation `indent(out)` prints: `n` space characters. */
  function Spaces(n: nat): string
  {
    seq(n, _ => ' ')
  }

  /** One printed line without its line terminator, exactly as the printf formats write it. */
  function Render(l: Line): string
  {
    match l
    case MethodLine(id, cls, name) =>
      "Method   : " + MethodText(id, cls, name)
    case TraceStartLine(faulty, idx, tid, frames) =>
      TraceStartLabel(faulty) + TraceStartText(idx, tid, frames)
    case FrameRaw(n, id, lineNumber) =>
      "StackFrame: " + (Spaces(n) + RawFrameText(id, lineNumber))
    case FrameResolved(n, cls, name, lineNumber) =>
      "StackFrame: " + (Spaces(n) + ResolvedFrameText(cls, name, lineNumber))
    case SummaryLine(traces, faultyCount) =>
      "Processed " + SummaryText(traces, faultyCount)
  }

  /**
   * The two trace-start labels have the same width and differ only in the
   * character after "TraceStart": a colon for a trace that declares no frames.
   */
  function TraceStartLabel(faulty: bool): (s: string)
    ensures |s| == 12 && s[..10] == "TraceStart"
    ensures s[10] == ':' <==> faulty
  {
    if faulty then "TraceStart: " else "TraceStartL "
  }

  function MethodText(id: int, cls: string, name: string): string
  {
    IntToDec(id) + " -> " + cls + "." + name
  }

  function TraceStartText(idx: int, tid: int, frames: int): string
  {
    "[" + IntToDec(idx) + "] tid=" + IntToDec(tid) + ",frames=" + IntToDec(frames)
  }

  function RawFrameText(id: int, lineNumber: int): (s: string)
    ensures |s| > 0 && s[0] != ' '
  {
    IntToDec(id) + " @ " + IntToDec(lineNumber)
  }

  function ResolvedFrameText(cls: string, name: string, lineNumber: int): string
  {
    cls + "::" + name + " @ " + IntToDec(lineNumber)
  }

  function SummaryText(traces: int, faultyCount: int): string
  {
    IntToDec(traces) + " traces, " + IntToDec(faultyCount) + " faulty"
  }

  /** The whole output: every line followed by a newline, in order. */
  function RenderAll(lines: seq<Line>): (text: string)
    ensures |text| >= |lines|
    decreases |lines|
  {
    if lines == [] then ""
    else RenderAll(lines[..|lines| - 1]) + Render(lines[|lines| - 1]) + "\n"
  }

  /** The text after the indentation of a stack-frame line. */
  function FrameTail(l: Line): string
    requires IsFrameLine(l)
  {
    if l.FrameRaw? then RawFrameText(l.id, l.lineNumber)
    else ResolvedFrameText(l.cls, l.name, l.lineNumber)
  }

  /** A frame printed as label, indentation and tail is the rendering of that frame line. */
  lemma PrintedFrame(before: string, l: Line)
    requires IsFrameLine(l)
    ensures before + "StackFrame: " + Spaces(l.spaces) + (FrameTail(l) + "\n") == before + Render(l) + "\n"
  {
    assert Render(l) == "StackFrame: " + (Spaces(l.spaces) + FrameTail(l));
  }

  lemma RenderAllAppend(lines: seq<Line>, l: Line)
    ensures RenderAll(lines + [l]) == RenderAll(lines) + Render(l) + "\n"
  {
    assert (lines + [l])[..|lines|] == lines;
  }

  lemma StartsWith(a: string, b: string)
    ensures (a + b)[..|a|] == a
  {
  }

  /**
   * The label each kind of line starts with. A trace that declares no frames
   * is labelled "TraceStart:", a well-formed one "TraceStartL".
   */
  lemma RenderedLabel(l: Line)
    ensures l.MethodLine? ==> Render(l)[..11] == "Method   : "
    ensures l.TraceStartLine? ==>
      Render(l)[..12] == (if l.faulty then "TraceStart: " else "TraceStartL ")
    ensures IsFrameLine(l) ==> Render(l)[..12] == "StackFrame: "
    ensures l.SummaryLine? ==> Render(l)[..10] == "Processed "
  {
    match l
    case MethodLine(id, cls, name) =>
      StartsWith("Method   : ", MethodText(id, cls, name));
    case TraceStartLine(faulty, idx, tid, frames) =>
      StartsWith(TraceStartLabel(faulty), TraceStartText(idx, tid, frames));
    case FrameRaw(n, id, lineNumber) =>
      StartsWith("StackFrame: ", Spaces(n) + RawFrameText(id, lineNumber));
    case FrameResolved(n, cls, name, lineNumber) =>
      StartsWith("StackFrame: ", Spaces(n) + ResolvedFrameText(cls, name, lineNumber));
    case SummaryLine(traces, faultyCount) =>
      StartsWith("Processed ", SummaryText(traces, faultyCount));
  }

  /**
   * A stack-frame line carries exactly `spaces` indentation characters after its
   * label; for an unresolved frame the id that follows does not start with a space.
   */
  lemma FrameIndentation(l: Line)
    requires IsFrameLine(l)
    ensures |Render(l)| >= 12 + l.spaces
    ensures forall k :: 12 <= k < 12 + l.spaces ==> Render(l)[k] == ' '
    ensures l.FrameRaw? ==> |Render(l)| > 12 + l.spaces && Render(l)[12 + l.spaces] != ' '
  {
    var sp := Spaces(l.spaces);
    var rest := sp + FrameTail(l);
    assert Render(l) == "StackFrame: " + rest;
    forall k | 12 <= k < 12 + l.spaces
      ensures Render(l)[k] == ' '
    {
      assert Render(l)[k] == rest[k - 12] == sp[k - 12];
    }
    if l.FrameRaw? {
      assert Render(l)[12 + l.spaces] == rest[l.spaces] == FrameTail(l)[0];
    }
  }
}
