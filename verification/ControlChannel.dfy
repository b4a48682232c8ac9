/**
 * The NDJSON control channel: one frame per line, printed by `Encode`, cut out of arbitrary chunks and read back
 * by `ControlFrameDecoder`.
 */
module ControlChannel {
  import opened Wrappers
  import opened Json
  import opened Framing
  import opened Seqs
  import Text

  datatype ParseErrorReason = InvalidJson | NotAnObject | MissingType | UnknownType

  datatype DecodeResult = Decoded(frame: Json) | Failed(reason: ParseErrorReason, line: string)

  const LINE_END := "\n"

  predicate IsFrameType(v: Json) {
    v == Str("control_request") || v == Str("control_response") || v == Str("control_event")
  }

  /** Any value the program may put on the channel: an object with a known discriminator. */
  predicate IsFrame(v: Json) {
    && v.Obj?
    && match Get(v, "type") case Some(t) => IsFrameType(t) case None => false
  }

  function Encode(frame: Json): string {
    Print(frame) + LINE_END
  }

  function Decode(line: string): DecodeResult {
    Judge(line, Parse(line))
  }

  /** The checks on what a line parsed to. */
  function Judge(line: string, parsed: Option<Json>): DecodeResult {
    match parsed
    case None => Failed(InvalidJson, line)
    case Some(v) =>
      if !v.Obj? then Failed(NotAnObject, line)
      else
        match Get(v, "type")
        case None => Failed(MissingType, line)
        case Some(t) => if IsFrameType(t) then Decoded(v) else Failed(UnknownType, line)
  }

  predicate Blank(line: string) {
    Text.Trim(line) == ""
  }

  /** What one line contributes: nothing when blank, otherwise its decoding. */
  function DecodeLine(line: string): Option<DecodeResult> {
    if Blank(line) then None else Some(Decode(line))
  }

  /** One result per line that is not blank, in order. */
  function DecodeLines(lines: seq<string>): seq<DecodeResult> {
    Collect(lines, DecodeLine)
  }

  // ----- what a line decodes to, exactly -----

  /** A frame is an object whose type is one of the three. */
  lemma DecodesExactly(line: string, f: Json)
    ensures Decode(line) == Decoded(f)
       <==> && Parse(line) == Some(f)
            && f.Obj?
            && exists t :: t in {"control_request", "control_response", "control_event"}
                           && Get(f, "type") == Some(Str(t))
  {
    var types := {"control_request", "control_response", "control_event"};
    if Parse(line) == Some(f) && Get(f, "type").Some? && IsFrameType(Get(f, "type").value) {
      assert Get(f, "type").value.s in types;
    }
  }

  /** Every failure carries its line, and the first reason that applies. */
  lemma FailuresExactly(line: string)
    ensures var r := Decode(line);
            match Parse(line)
            case None => r == Failed(InvalidJson, line)
            case Some(v) =>
              && (r.Failed? ==> r.line == line && r.reason != InvalidJson)
              && (r == Failed(NotAnObject, line) <==> !v.Obj?)
              && (r == Failed(MissingType, line) <==>
                    v.Obj? && forall i :: 0 <= i < |v.members| ==> v.members[i].key != "type")
              && (r == Failed(UnknownType, line) <==>
                    v.Obj? && (exists i :: 0 <= i < |v.members| && v.members[i].key == "type") && !IsFrame(v))
  {
  }

  lemma BlankExactly(line: string)
    ensures DecodeLine(line) == None <==> forall i :: 0 <= i < |line| ==> Text.IsSpace(line[i])
    ensures DecodeLine(line).Some? ==> DecodeLine(line).value == Decode(line)
  {
  }

  /** A result that may leave the channel: a frame the program could hold, or a failure of one physical line. */
  predicate Genuine(r: DecodeResult) {
    match r
    case Decoded(f) => Safe(f) && IsFrame(f)
    case Failed(_, line) => '\n' !in line && !Blank(line)
  }

  lemma JudgedFrames(line: string, parsed: Option<Json>)
    requires parsed.Some? ==> Safe(parsed.value)
    ensures match Judge(line, parsed)
            case Decoded(f) => Safe(f) && IsFrame(f)
            case Failed(_, failed) => failed == line
  {
  }

  lemma DecodedIsGenuine(line: string)
    requires '\n' !in line && !Blank(line)
    ensures Genuine(Decode(line))
  {
    ParseIsSafe(line);
    JudgedFrames(line, Parse(line));
  }

  lemma ReadsAs(line: string)
    ensures DecodeLine(line) == if Blank(line) then None else Some(Decode(line))
  {
  }

  /** One result for every line that is not blank: that line's decoding, in the order of the lines. */
  lemma OneResultPerLine(lines: seq<string>)
    ensures |DecodeLines(lines)| == |Kept(lines, DecodeLine)|
    ensures forall i :: 0 <= i < |DecodeLines(lines)| ==>
              var line := Kept(lines, DecodeLine)[i];
              line in lines && !Blank(line) && DecodeLines(lines)[i] == Decode(line)
  {
    OneEach(lines, DecodeLine);
    forall i | 0 <= i < |DecodeLines(lines)|
      ensures var line := Kept(lines, DecodeLine)[i];
              line in lines && !Blank(line) && DecodeLines(lines)[i] == Decode(line)
    {
      ReadsAs(Kept(lines, DecodeLine)[i]);
    }
  }

  lemma DecodedAreGenuine(lines: seq<string>)
    requires forall l :: l in lines ==> '\n' !in l
    ensures forall r :: r in DecodeLines(lines) ==> Genuine(r)
  {
    OneResultPerLine(lines);
    forall i | 0 <= i < |DecodeLines(lines)|
      ensures Genuine(DecodeLines(lines)[i])
    {
      DecodedIsGenuine(Kept(lines, DecodeLine)[i]);
    }
  }

  /** What a text yields is genuine, cut or split. */
  lemma PiecesAreGenuine(text: string)
    ensures forall r :: r in DecodeLines(Segments(text, LINE_END)) ==> Genuine(r)
    ensures DecodeLine(Remainder(text, LINE_END)).Some? ==> Genuine(DecodeLine(Remainder(text, LINE_END)).value)
  {
    SplitPartsFree(text, '\n');
    var (lines, last) := (Segments(text, LINE_END), Remainder(text, LINE_END));
    assert forall l :: l in lines ==> l in Split(text, LINE_END);
    assert Split(text, LINE_END)[|lines|] == last;
    DecodedAreGenuine(lines);
    if !Blank(last) {
      DecodedIsGenuine(last);
    }
  }

  class ControlFrameDecoder {
    var buffer: string

    constructor ()
      ensures buffer == ""
    {
      buffer := "";
    }

    method Push(chunk: string) returns (results: seq<DecodeResult>)
      modifies this
      ensures results == DecodeLines(Segments(old(buffer) + chunk, LINE_END))
      ensures buffer == Remainder(old(buffer) + chunk, LINE_END)
      ensures forall r :: r in results ==> Genuine(r)
    {
      buffer := buffer + chunk;
      results := [];
      var newlineIndex := IndexOf(buffer, LINE_END);
      while newlineIndex != -1
        invariant newlineIndex == IndexOf(buffer, LINE_END)
        invariant results + Collect(Segments(buffer, LINE_END), DecodeLine)
               == Collect(Segments(old(buffer) + chunk, LINE_END), DecodeLine)
        invariant Remainder(buffer, LINE_END) == Remainder(old(buffer) + chunk, LINE_END)
        decreases |buffer|
      {
        EmitFirst(results, buffer, LINE_END, newlineIndex, DecodeLine);
        var line := buffer[..newlineIndex];
        ghost var emitted, more := results, Collect(Segments(buffer[newlineIndex + 1..], LINE_END), DecodeLine);
        assert emitted + Listed(DecodeLine(line)) + more
            == Collect(Segments(old(buffer) + chunk, LINE_END), DecodeLine);
        buffer := buffer[newlineIndex + 1..];
        if Text.Trim(line) != "" {
          results := results + [Decode(line)];
        }
        NoRight(emitted);
        assert results == emitted + Listed(DecodeLine(line));
        newlineIndex := IndexOf(buffer, LINE_END);
      }
      PiecesAreGenuine(old(buffer) + chunk);
    }

    method Flush() returns (last: Option<DecodeResult>)
      modifies this
      ensures last == DecodeLine(old(buffer))
      ensures '\n' !in old(buffer) && last.Some? ==> Genuine(last.value)
      ensures buffer == ""
    {
      if '\n' !in buffer && !Blank(buffer) {
        DecodedIsGenuine(buffer);
      }
      var line := buffer;
      buffer := "";
      last := if Text.Trim(line) == "" then None else Some(Decode(line));
    }
  }

  /** A decoder fed a whole stream in arbitrary chunks and flushed at its end. */
  method DecodeStream(chunks: seq<string>) returns (results: seq<DecodeResult>, last: Option<DecodeResult>)
    ensures results == DecodeLines(Segments(Concat(chunks), LINE_END))
    ensures last == DecodeLine(Remainder(Concat(chunks), LINE_END))
    ensures results + Listed(last) == DecodeLines(Split(Concat(chunks), LINE_END))
    ensures forall r :: r in results + Listed(last) ==> Genuine(r)
  {
    PiecesAreGenuine(Concat(chunks));
    var decoder := new ControlFrameDecoder();
    results := [];
    for i := 0 to |chunks|
      invariant results == Collect(Segments(Concat(chunks[..i]), LINE_END), DecodeLine)
      invariant decoder.buffer == Remainder(Concat(chunks[..i]), LINE_END)
    {
      var more := decoder.Push(chunks[i]);
      ConcatPrefix(chunks, i);
      CollectMore(Concat(chunks[..i]), chunks[i], LINE_END, DecodeLine);
      results := results + more;
    }
    WholePrefix(chunks);
    last := decoder.Flush();
    CollectSplit(Concat(chunks), LINE_END, DecodeLine);
  }

  // ----- what the channel guarantees -----

  function Lines(frames: seq<Json>): seq<string> {
    seq(|frames|, i requires 0 <= i < |frames| => Print(frames[i]))
  }

  function Results(frames: seq<Json>): seq<DecodeResult> {
    seq(|frames|, i requires 0 <= i < |frames| => Decoded(frames[i]))
  }

  function EncodeAll(frames: seq<Json>): string {
    if frames == [] then "" else Encode(frames[0]) + EncodeAll(frames[1..])
  }

  lemma NotBlank(line: string)
    requires line != "" && !Text.IsSpace(line[0])
    ensures !Blank(line)
  {
  }

  /** One frame: printed on one line, and read back as itself. */
  lemma FrameSurvives(frame: Json)
    requires Safe(frame) && IsFrame(frame)
    ensures DecodeLine(Print(frame)) == Some(Decoded(frame))
    ensures CutsWhole(Print(frame), LINE_END)
  {
    var line := Print(frame);
    ParsePrint(frame);
    assert Decode(line) == Decoded(frame);
    assert line[0] == '{';
    NotBlank(line);
    PrintOneLine(frame);
    CharFree(line, '\n');
  }

  /** Every value that can be printed decodes to itself exactly when it is a frame, and otherwise says why not. */
  lemma PrintedValueDecodes(v: Json)
    requires Safe(v)
    ensures Decode(Print(v))
         == if IsFrame(v) then Decoded(v)
            else Failed(if !v.Obj? then NotAnObject
                        else if forall i :: 0 <= i < |v.members| ==> v.members[i].key != "type" then MissingType
                        else UnknownType, Print(v))
  {
    ParsePrint(v);
  }

  lemma {:induction false} EncodedLines(frames: seq<Json>)
    ensures EncodeAll(frames) == Terminated(Lines(frames), LINE_END)
  {
    if frames != [] {
      EncodedLines(frames[1..]);
      assert Lines(frames)[1..] == Lines(frames[1..]);
    }
  }

  lemma LinesDecode(frames: seq<Json>)
    requires forall f :: f in frames ==> Safe(f) && IsFrame(f)
    ensures Collect(Lines(frames), DecodeLine) == Results(frames)
  {
    forall i | 0 <= i < |frames|
      ensures DecodeLine(Lines(frames)[i]) == Some(Results(frames)[i])
    {
      assert frames[i] in frames;
      FrameSurvives(frames[i]);
    }
    CollectAll(Lines(frames), DecodeLine, Results(frames));
  }

  /** Frames printed, cut anywhere and pushed come back exactly, in order, with nothing left over. */
  lemma FramesSurvive(frames: seq<Json>, chunks: seq<string>)
    requires forall f :: f in frames ==> Safe(f) && IsFrame(f)
    requires Concat(chunks) == EncodeAll(frames)
    ensures DecodeLines(Segments(Concat(chunks), LINE_END)) == Results(frames)
    ensures Remainder(Concat(chunks), LINE_END) == "" && DecodeLine("") == None
  {
    EncodedLines(frames);
    forall line | line in Lines(frames)
      ensures CutsWhole(line, LINE_END)
    {
      var i :| 0 <= i < |frames| && line == Print(frames[i]);
      assert frames[i] in frames;
      FrameSurvives(frames[i]);
    }
    NoRight(EncodeAll(frames));
    CharFree("", '\n');
    CutsRecover(Lines(frames), "", LINE_END);
    LinesDecode(frames);
  }

  /** `r` is what follows the last newline of `s`. */
  predicate AfterLastNewline(s: string, r: string) {
    && |r| <= |s| && s[|s| - |r|..] == r
    && '\n' !in r
    && (r != s ==> s[|s| - |r| - 1] == '\n')
  }

  lemma TailOfTail(s: string, k: nat, r: string)
    requires 0 < k <= |s| && s[k - 1] == '\n' && AfterLastNewline(s[k..], r)
    ensures AfterLastNewline(s, r)
  {
  }

  lemma NoNewlineYet(s: string)
    requires IndexOf(s, LINE_END) == -1
    ensures AfterLastNewline(s, s)
  {
    IndexOfIsFirst(s, LINE_END);
    OccursIsMember(s, '\n');
  }

  lemma NewlineAt(s: string, i: nat)
    requires IndexOf(s, LINE_END) == i
    ensures i < |s| && s[i] == '\n'
  {
    IndexOfIsFirst(s, LINE_END);
    assert s[i..i + 1][0] == '\n';
  }

  /** The buffer between two calls: the text after the last newline seen. */
  lemma {:induction false} BufferIsAfterLastNewline(seen: string)
    ensures AfterLastNewline(seen, Remainder(seen, LINE_END))
    decreases |seen|
  {
    var i := IndexOf(seen, LINE_END);
    if i == -1 {
      NoNewlineYet(seen);
    } else {
      NewlineAt(seen, i);
      FirstCut(seen, LINE_END, i);
      BufferIsAfterLastNewline(seen[i + 1..]);
      TailOfTail(seen, i + 1, Remainder(seen, LINE_END));
    }
  }

  /** A line is decoded on its own: what stands before and after it is decoded as if it were not there. */
  lemma LinesAreIndependent(before: string, line: string, after: string)
    requires '\n' !in line
    ensures DecodeLines(Split(before + LINE_END + (line + LINE_END + after), LINE_END))
         == DecodeLines(Split(before, LINE_END)) + (Listed(DecodeLine(line)) + DecodeLines(Split(after, LINE_END)))
  {
    SplitAt(before, line + LINE_END + after, '\n');
    SplitAt(line, after, '\n');
    CharFree(line, '\n');
    IndexOfIsFirst(line, LINE_END);
    NoLeft([line]);
    CollectSplit(line, LINE_END, DecodeLine);
    NoLeft(Listed(DecodeLine(line)));
    CollectAppend(Split(line, LINE_END), Split(after, LINE_END), DecodeLine);
    CollectAppend(Split(before, LINE_END), Split(line, LINE_END) + Split(after, LINE_END), DecodeLine);
  }
}
