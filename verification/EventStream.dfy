/**
 * The downstream event stream: `\n\n`-terminated blocks of fields, printed by the server and cut out of arbitrary
 * socket reads by `SseReader`.
 */
module EventStream {
  import opened Wrappers
  import opened Framing
  import opened Seqs
  import Text

  datatype SseEvent = SseEvent(event: Option<string>, id: Option<string>, data: string)

  const BLOCK_END := "\n\n"

  predicate StartsWith(line: string, prefix: string) {
    prefix <= line
  }

  /** The value of the last line that carries the field, or nothing. */
  function LastField(lines: seq<string>, name: string): Option<string> {
    if lines == [] then None
    else
      var last := lines[|lines| - 1];
      if StartsWith(last, name) then Some(Text.Trim(last[|name|..]))
      else LastField(lines[..|lines| - 1], name)
  }

  /** A data line without its field name and without one space after it. */
  function DataValue(line: string): string
    requires StartsWith(line, "data:")
  {
    var value := line[5..];
    if StartsWith(value, " ") then value[1..] else value
  }

  function DataLines(lines: seq<string>): seq<string> {
    if lines == [] then []
    else
      var last := lines[|lines| - 1];
      DataLines(lines[..|lines| - 1]) + if StartsWith(last, "data:") then [DataValue(last)] else []
  }

  function Assemble(lines: seq<string>): Option<SseEvent> {
    var data := DataLines(lines);
    if data == [] then None
    else Some(SseEvent(LastField(lines, "event:"), LastField(lines, "id:"), Join(data, "\n")))
  }

  /** What a block stands for: the last name, the last cursor and all data lines, or nothing without data. */
  function BlockEvent(block: string): Option<SseEvent> {
    Assemble(Split(block, "\n"))
  }

  lemma OneField(line: string)
    ensures StartsWith(line, ":") ==>
              !StartsWith(line, "event:") && !StartsWith(line, "id:") && !StartsWith(line, "data:")
    ensures StartsWith(line, "event:") ==> !StartsWith(line, "id:") && !StartsWith(line, "data:")
    ensures StartsWith(line, "id:") ==> !StartsWith(line, "data:")
  {
    if StartsWith(line, ":") {
      assert line[0] == ":"[0];
    }
  }

  lemma NextField(lines: seq<string>, i: nat, name: string)
    requires i < |lines|
    ensures LastField(lines[..i + 1], name)
         == if StartsWith(lines[i], name) then Some(Text.Trim(lines[i][|name|..])) else LastField(lines[..i], name)
  {
    assert lines[..i + 1][..i] == lines[..i];
  }

  lemma NextData(lines: seq<string>, i: nat)
    requires i < |lines|
    ensures DataLines(lines[..i + 1])
         == if StartsWith(lines[i], "data:")
            then DataLines(lines[..i]) + [DataValue(lines[i])]
            else DataLines(lines[..i])
  {
    assert lines[..i + 1][..i] == lines[..i];
    NoRight(DataLines(lines[..i]));
  }

  method ParseSseBlock(block: string) returns (r: Option<SseEvent>)
    ensures r == BlockEvent(block)
  {
    var event: Option<string> := None;
    var id: Option<string> := None;
    var dataLines: seq<string> := [];
    var lines := Split(block, "\n");
    for i := 0 to |lines|
      invariant event == LastField(lines[..i], "event:")
      invariant id == LastField(lines[..i], "id:")
      invariant dataLines == DataLines(lines[..i])
    {
      var line := lines[i];
      NextField(lines, i, "event:");
      NextField(lines, i, "id:");
      NextData(lines, i);
      OneField(line);
      if StartsWith(line, ":") {
        continue;
      }
      if StartsWith(line, "event:") {
        event := Some(Text.Trim(line[6..]));
      } else if StartsWith(line, "id:") {
        id := Some(Text.Trim(line[3..]));
      } else if StartsWith(line, "data:") {
        var value := line[5..];
        dataLines := dataLines + [if StartsWith(value, " ") then value[1..] else value];
      }
    }
    WholePrefix(lines);
    r := if dataLines == [] then None else Some(SseEvent(event, id, Join(dataLines, "\n")));
  }

  /** The reader's data handler: `events` is what it has handed to `onEvent` so far. */
  class SseReader {
    var buffer: string
    var events: seq<SseEvent>

    constructor ()
      ensures buffer == "" && events == []
    {
      buffer, events := "", [];
    }

    method OnData(chunk: string)
      modifies this
      ensures events == old(events) + Collect(Segments(old(buffer) + chunk, BLOCK_END), BlockEvent)
      ensures buffer == Remainder(old(buffer) + chunk, BLOCK_END)
    {
      buffer := buffer + chunk;
      var boundary := IndexOf(buffer, BLOCK_END);
      while boundary != -1
        invariant boundary == IndexOf(buffer, BLOCK_END)
        invariant events + Collect(Segments(buffer, BLOCK_END), BlockEvent)
               == old(events) + Collect(Segments(old(buffer) + chunk, BLOCK_END), BlockEvent)
        invariant Remainder(buffer, BLOCK_END) == Remainder(old(buffer) + chunk, BLOCK_END)
        decreases |buffer|
      {
        EmitFirst(events, buffer, BLOCK_END, boundary, BlockEvent);
        var parsed := ParseSseBlock(buffer[..boundary]);
        NoRight(events);
        if parsed != None {
          events := events + [parsed.value];
        }
        buffer := buffer[boundary + 2..];
        boundary := IndexOf(buffer, BLOCK_END);
      }
      NoRight(events);
    }
  }

  /** A reader that has been handed a whole stream in arbitrary chunks. */
  method ReadStream(chunks: seq<string>) returns (events: seq<SseEvent>, rest: string)
    ensures events == Collect(Segments(Concat(chunks), BLOCK_END), BlockEvent)
    ensures rest == Remainder(Concat(chunks), BLOCK_END)
  {
    var reader := new SseReader();
    for i := 0 to |chunks|
      invariant reader.events == Collect(Segments(Concat(chunks[..i]), BLOCK_END), BlockEvent)
      invariant reader.buffer == Remainder(Concat(chunks[..i]), BLOCK_END)
    {
      reader.OnData(chunks[i]);
      ConcatPrefix(chunks, i);
      CollectMore(Concat(chunks[..i]), chunks[i], BLOCK_END, BlockEvent);
    }
    WholePrefix(chunks);
    events, rest := reader.events, reader.buffer;
  }

  // ----- what a block reads as, exactly -----

  /** A data line gives what follows its name, without one space if there is one. */
  lemma DataValueExactly(value: string)
    ensures DataValue("data:" + value) == if value != "" && value[0] == ' ' then value[1..] else value
    ensures DataValue("data: " + value) == value
  {
    assert ("data:" + value)[5..] == value;
    assert ("data: " + value)[5..] == " " + value;
    assert (" " + value)[1..] == value;
  }

  /** Line `i` is the last one that carries the field. */
  predicate LastCarrier(lines: seq<string>, name: string, i: nat) {
    i < |lines| && name <= lines[i] && forall j :: i < j < |lines| ==> !(name <= lines[j])
  }

  lemma CarrierStays(lines: seq<string>, name: string, i: nat)
    requires lines != [] && !(name <= lines[|lines| - 1]) && LastCarrier(lines[..|lines| - 1], name, i)
    ensures LastCarrier(lines, name, i) && lines[..|lines| - 1][i] == lines[i]
  {
    assert forall j :: 0 <= j < |lines| - 1 ==> lines[..|lines| - 1][j] == lines[j];
  }

  /** The last line that carries the field decides, trimmed; and there is none without such a line. */
  lemma {:induction false} LastFieldExactly(lines: seq<string>, name: string) returns (i: nat)
    ensures LastField(lines, name).Some? ==>
              LastCarrier(lines, name, i) && LastField(lines, name).value == Text.Trim(lines[i][|name|..])
    ensures LastField(lines, name).None? ==> forall k :: 0 <= k < |lines| ==> !(name <= lines[k])
  {
    i := 0;
    if lines != [] {
      var last := |lines| - 1;
      if name <= lines[last] {
        i := last;
      } else {
        i := LastFieldExactly(lines[..last], name);
        assert forall k :: 0 <= k < last ==> lines[..last][k] == lines[k];
        if LastField(lines, name).Some? {
          CarrierStays(lines, name, i);
        }
      }
    }
  }

  /** Which lines of a block are data lines, and what they give, in order. */
  lemma DataLinesExactly(before: seq<string>, line: string, after: seq<string>)
    ensures DataLines(before + [line] + after)
         == DataLines(before) + (if "data:" <= line then [DataValue(line)] else []) + DataLines(after)
  {
    DataLinesAppend(before, [line]);
    DataLinesAppend(before + [line], after);
    assert [line][..0] == [];
    assert DataLines([line][..0]) == [];
    NoLeft(if "data:" <= line then [DataValue(line)] else []);
  }

  lemma {:induction false} NoDataExactly(lines: seq<string>)
    ensures DataLines(lines) == [] <==> forall k :: 0 <= k < |lines| ==> !("data:" <= lines[k])
  {
    if lines != [] {
      NoDataExactly(lines[..|lines| - 1]);
    }
  }

  /** A block is its lines: an event exactly when one of them is a data line, named and numbered by the last that do. */
  lemma BlockExactly(lines: seq<string>)
    requires |lines| > 0 && forall l :: l in lines ==> '\n' !in l
    ensures match BlockEvent(Join(lines, "\n"))
            case None => forall k :: 0 <= k < |lines| ==> !("data:" <= lines[k])
            case Some(e) =>
              && (exists k :: 0 <= k < |lines| && "data:" <= lines[k])
              && e.event == LastField(lines, "event:") && e.id == LastField(lines, "id:")
              && DataLines(lines) != [] && e.data == Join(DataLines(lines), "\n")
  {
    SplitJoin(lines, '\n');
    NoDataExactly(lines);
  }

  // ----- the printer: section 9.2 of the WHATWG HTML standard, LF line ends -----

  /** One block of a stream: comment lines, then an event unless the block is a keep-alive. */
  datatype Block = Block(comments: seq<string>, message: Option<SseEvent>)

  predicate FieldText(o: Option<string>) {
    o.Some? ==> '\n' !in o.value
  }

  /** The reader trims names and cursors, where section 9.2 of the standard removes one leading space. */
  function Trimming(o: Option<string>): Option<string> {
    if o.Some? then Some(Text.Trim(o.value)) else None
  }

  /** What the reader makes of a message. */
  function Received(m: Option<SseEvent>): Option<SseEvent> {
    match m
    case None => None
    case Some(e) => Some(SseEvent(Trimming(e.event), Trimming(e.id), e.data))
  }

  /** A message without space around its name or its cursor. */
  predicate Plain(m: Option<SseEvent>) {
    m.Some? ==>
      && (m.value.event.Some? ==> Text.Trimmed(m.value.event.value))
      && (m.value.id.Some? ==> Text.Trimmed(m.value.id.value))
  }

  predicate Printable(b: Block) {
    && (b.comments != [] || b.message.Some?)
    && (forall c :: c in b.comments ==> '\n' !in c)
    && (b.message.Some? ==> FieldText(b.message.value.event) && FieldText(b.message.value.id))
  }

  function Prefixed(prefix: string, values: seq<string>): seq<string> {
    seq(|values|, i requires 0 <= i < |values| => prefix + values[i])
  }

  function EventLines(e: SseEvent): seq<string> {
    Prefixed("event: ", Listed(e.event)) + Prefixed("id: ", Listed(e.id)) + Prefixed("data: ", Split(e.data, "\n"))
  }

  function BlockLines(b: Block): seq<string> {
    Prefixed(": ", b.comments) + if b.message.Some? then EventLines(b.message.value) else []
  }

  function PrintBlock(b: Block): string
    requires Printable(b)
  {
    Join(BlockLines(b), "\n")
  }

  function PrintStream(blocks: seq<Block>): string
    requires forall b :: b in blocks ==> Printable(b)
  {
    if blocks == [] then "" else PrintBlock(blocks[0]) + BLOCK_END + PrintStream(blocks[1..])
  }

  function Messages(blocks: seq<Block>): seq<SseEvent> {
    if blocks == [] then [] else Listed(blocks[0].message) + Messages(blocks[1..])
  }

  function ReceivedMessages(blocks: seq<Block>): seq<SseEvent> {
    if blocks == [] then [] else Listed(Received(blocks[0].message)) + ReceivedMessages(blocks[1..])
  }

  // ----- reading undoes printing -----

  lemma {:induction false} LastFieldAppend(a: seq<string>, b: seq<string>, name: string)
    ensures LastField(a + b, name) == if LastField(b, name).Some? then LastField(b, name) else LastField(a, name)
  {
    if b == [] {
      NoRight(a);
    } else {
      LastFieldAppend(a, b[..|b| - 1], name);
      LastOfAppend(a, b);
    }
  }

  lemma {:induction false} DataLinesAppend(a: seq<string>, b: seq<string>)
    ensures DataLines(a + b) == DataLines(a) + DataLines(b)
  {
    if b == [] {
      NoRight(a);
      NoRight(DataLines(a));
    } else {
      var front, last := b[..|b| - 1], b[|b| - 1];
      DataLinesAppend(a, front);
      LastOfAppend(a, b);
      Assoc(DataLines(a), DataLines(front), if StartsWith(last, "data:") then [DataValue(last)] else []);
    }
  }

  /** Lines of another field contribute nothing. */
  lemma {:induction false} OtherField(lines: seq<string>, name: string)
    requires forall l :: l in lines ==> !StartsWith(l, name)
    ensures LastField(lines, name) == None
    ensures name == "data:" ==> DataLines(lines) == []
  {
    if lines != [] {
      assert lines[|lines| - 1] in lines;
      OtherField(lines[..|lines| - 1], name);
    }
  }

  lemma FieldReadBack(o: Option<string>, prefix: string, name: string)
    requires FieldText(o) && prefix == name + " "
    ensures LastField(Prefixed(prefix, Listed(o)), name) == Trimming(o)
  {
    var lines := Prefixed(prefix, Listed(o));
    if o.Some? {
      assert lines == [prefix + o.value];
      assert lines[0][|name|..] == " " + o.value;
      Text.TrimLeadingSpace(o.value);
    }
  }

  lemma {:induction false} DataReadBack(values: seq<string>)
    ensures DataLines(Prefixed("data: ", values)) == values
  {
    if values != [] {
      var lines, last := Prefixed("data: ", values), values[|values| - 1];
      assert lines[..|lines| - 1] == Prefixed("data: ", values[..|values| - 1]);
      DataReadBack(values[..|values| - 1]);
      assert lines[|lines| - 1][5..] == " " + last;
      assert (" " + last)[1..] == last;
    }
  }

  predicate OtherPrefix(prefix: string, name: string) {
    exists i :: 0 <= i < |prefix| && i < |name| && prefix[i] != name[i]
  }

  lemma PrefixesDiffer(prefix: string, values: seq<string>, name: string)
    requires OtherPrefix(prefix, name)
    ensures forall l :: l in Prefixed(prefix, values) ==> !StartsWith(l, name)
  {
    var i :| 0 <= i < |prefix| && i < |name| && prefix[i] != name[i];
    forall l | l in Prefixed(prefix, values)
      ensures !StartsWith(l, name)
    {
      assert l[i] == prefix[i];
    }
  }

  lemma FieldsDiffer(prefix: string, values: seq<string>)
    requires prefix in {": ", "event: ", "id: ", "data: "}
    ensures prefix != "event: " ==> LastField(Prefixed(prefix, values), "event:") == None
    ensures prefix != "id: " ==> LastField(Prefixed(prefix, values), "id:") == None
    ensures prefix != "data: " ==> DataLines(Prefixed(prefix, values)) == []
  {
    if prefix != "event: " {
      assert prefix[0] != "event:"[0];
      PrefixesDiffer(prefix, values, "event:");
      OtherField(Prefixed(prefix, values), "event:");
    }
    if prefix != "id: " {
      assert prefix[0] != "id:"[0];
      PrefixesDiffer(prefix, values, "id:");
      OtherField(Prefixed(prefix, values), "id:");
    }
    if prefix != "data: " {
      assert prefix[0] != "data:"[0];
      PrefixesDiffer(prefix, values, "data:");
      OtherField(Prefixed(prefix, values), "data:");
    }
  }

  lemma FieldOfThree(a: seq<string>, b: seq<string>, c: seq<string>, name: string)
    requires LastField(c, name) == None
    ensures LastField(a + b + c, name) == if LastField(b, name).Some? then LastField(b, name) else LastField(a, name)
  {
    LastFieldAppend(a, b, name);
    LastFieldAppend(a + b, c, name);
  }

  lemma DataOfThree(a: seq<string>, b: seq<string>, c: seq<string>)
    requires DataLines(a) == [] && DataLines(b) == []
    ensures DataLines(a + b + c) == DataLines(c)
  {
    DataLinesAppend(a, b);
    DataLinesAppend(a + b, c);
    NoLeft(DataLines(c));
  }

  lemma NameReadBack(e: SseEvent)
    requires FieldText(e.event)
    ensures LastField(EventLines(e), "event:") == Trimming(e.event)
  {
    FieldReadBack(e.event, "event: ", "event:");
    FieldsDiffer("id: ", Listed(e.id));
    FieldsDiffer("data: ", Split(e.data, "\n"));
    FieldOfThree(Prefixed("event: ", Listed(e.event)), Prefixed("id: ", Listed(e.id)),
                 Prefixed("data: ", Split(e.data, "\n")), "event:");
  }

  lemma IdReadBack(e: SseEvent)
    requires FieldText(e.id)
    ensures LastField(EventLines(e), "id:") == Trimming(e.id)
  {
    FieldReadBack(e.id, "id: ", "id:");
    FieldsDiffer("event: ", Listed(e.event));
    FieldsDiffer("data: ", Split(e.data, "\n"));
    FieldOfThree(Prefixed("event: ", Listed(e.event)), Prefixed("id: ", Listed(e.id)),
                 Prefixed("data: ", Split(e.data, "\n")), "id:");
  }

  lemma PayloadReadBack(e: SseEvent)
    ensures DataLines(EventLines(e)) == Split(e.data, "\n")
  {
    DataReadBack(Split(e.data, "\n"));
    FieldsDiffer("event: ", Listed(e.event));
    FieldsDiffer("id: ", Listed(e.id));
    DataOfThree(Prefixed("event: ", Listed(e.event)), Prefixed("id: ", Listed(e.id)),
                Prefixed("data: ", Split(e.data, "\n")));
  }

  lemma LinesReadBack(b: Block)
    requires Printable(b)
    ensures Assemble(BlockLines(b)) == Received(b.message)
  {
    var comments := Prefixed(": ", b.comments);
    FieldsDiffer(": ", b.comments);
    if b.message.None? {
      NoRight(comments);
    } else {
      var e := b.message.value;
      NameReadBack(e);
      IdReadBack(e);
      PayloadReadBack(e);
      LastFieldAppend(comments, EventLines(e), "event:");
      LastFieldAppend(comments, EventLines(e), "id:");
      DataLinesAppend(comments, EventLines(e));
      NoLeft(Split(e.data, "\n"));
      JoinSplit(e.data, "\n");
    }
  }

  /** Text in which no blank line can be found, even when a newline is put on either side. */
  predicate Tidy(s: string) {
    && s != "" && s[0] != '\n' && s[|s| - 1] != '\n'
    && forall j :: 0 <= j < |s| - 1 ==> !(s[j] == '\n' && s[j + 1] == '\n')
  }

  predicate LineText(s: string) {
    s != "" && '\n' !in s
  }

  lemma LineIsTidy(s: string)
    requires LineText(s)
    ensures Tidy(s)
  {
    assert forall j :: 0 <= j < |s| ==> s[j] in s;
  }

  lemma TidyJoin(a: string, b: string)
    requires Tidy(a) && Tidy(b)
    ensures Tidy(a + "\n" + b)
  {
    var s := a + "\n" + b;
    forall j | 0 <= j < |s| - 1
      ensures !(s[j] == '\n' && s[j + 1] == '\n')
    {
      if j < |a| - 1 {
        assert s[j] == a[j] && s[j + 1] == a[j + 1];
      } else if j > |a| {
        assert s[j] == b[j - |a| - 1] && s[j + 1] == b[j - |a|];
      }
    }
  }

  lemma {:induction false} JoinedLinesTidy(lines: seq<string>)
    requires |lines| > 0 && forall l :: l in lines ==> LineText(l)
    ensures Tidy(Join(lines, "\n"))
  {
    assert lines[0] in lines;
    LineIsTidy(lines[0]);
    if |lines| > 1 {
      JoinedLinesTidy(lines[1..]);
      TidyJoin(lines[0], Join(lines[1..], "\n"));
    }
  }

  lemma TidyCutsWhole(s: string)
    requires Tidy(s)
    ensures CutsWhole(s, BLOCK_END)
  {
    var t := s + BLOCK_END;
    forall j | 0 <= j < |s|
      ensures !OccursAt(t, BLOCK_END, j)
    {
      assert t[j..j + 2] == [t[j], t[j + 1]];
      assert t[j] == s[j];
    }
    assert t[|s|..|s| + 2] == BLOCK_END;
    FirstOccurrence(t, BLOCK_END, |s|);
  }

  lemma PrefixedAreLines(prefix: string, values: seq<string>)
    requires LineText(prefix) && forall v :: v in values ==> '\n' !in v
    ensures forall l :: l in Prefixed(prefix, values) ==> LineText(l)
    ensures |Prefixed(prefix, values)| == |values|
  {
  }

  lemma BlockLinesAreLines(b: Block)
    requires Printable(b)
    ensures |BlockLines(b)| > 0 && forall l :: l in BlockLines(b) ==> LineText(l)
  {
    PrefixedAreLines(": ", b.comments);
    if b.message.Some? {
      var e := b.message.value;
      SplitPartsFree(e.data, '\n');
      PrefixedAreLines("event: ", Listed(e.event));
      PrefixedAreLines("id: ", Listed(e.id));
      PrefixedAreLines("data: ", Split(e.data, "\n"));
    }
  }

  /** A message is received as it is exactly when its name and cursor have no space around them. */
  lemma ReceivedExactly(m: Option<SseEvent>)
    ensures Received(m) == m <==> Plain(m)
  {
  }

  /**
   * One block: it ends where it should and reads back with its name and cursor trimmed and its data untouched;
   * that is the message itself exactly when there was nothing to trim.
   */
  lemma BlockSurvives(b: Block)
    requires Printable(b)
    ensures BlockEvent(PrintBlock(b)) == Received(b.message)
    ensures BlockEvent(PrintBlock(b)) == b.message <==> Plain(b.message)
    ensures CutsWhole(PrintBlock(b), BLOCK_END)
  {
    BlockLinesAreLines(b);
    JoinedLinesTidy(BlockLines(b));
    TidyCutsWhole(PrintBlock(b));
    SplitJoin(BlockLines(b), '\n');
    LinesReadBack(b);
    ReceivedExactly(b.message);
  }

  /** An event named with a space in front reads back under another name. */
  lemma SpacedNameIsLost(e: SseEvent, name: string)
    requires e.event == Some(" " + name) && e.id == None
    requires '\n' !in name && Text.Trimmed(name)
    ensures BlockEvent(PrintBlock(Block([], Some(e)))) == Some(SseEvent(Some(name), None, e.data))
    ensures BlockEvent(PrintBlock(Block([], Some(e)))) != Some(e)
  {
    BlockSurvives(Block([], Some(e)));
    Text.TrimLeadingSpace(name);
  }

  lemma {:induction false} StreamReadBack(blocks: seq<Block>)
    requires forall b :: b in blocks ==> Printable(b)
    ensures Collect(Segments(PrintStream(blocks), BLOCK_END), BlockEvent) == ReceivedMessages(blocks)
    ensures Remainder(PrintStream(blocks), BLOCK_END) == ""
  {
    if blocks != [] {
      assert blocks[0] in blocks;
      var p, rest := PrintBlock(blocks[0]), PrintStream(blocks[1..]);
      BlockSurvives(blocks[0]);
      StreamReadBack(blocks[1..]);
      CutWhole(p, rest, BLOCK_END);
      CollectAppend([p], Segments(rest, BLOCK_END), BlockEvent);
      CollectOne(p, BlockEvent);
    }
  }

  lemma ListsAgree<T>(x: Option<T>, y: Option<T>, xs: seq<T>, ys: seq<T>)
    requires x.Some? <==> y.Some?
    ensures Listed(x) + xs == Listed(y) + ys <==> x == y && xs == ys
  {
    if x.Some? && Listed(x) + xs == Listed(y) + ys {
      assert (Listed(x) + xs)[0] == x.value && (Listed(y) + ys)[0] == y.value;
      assert (Listed(x) + xs)[1..] == xs && (Listed(y) + ys)[1..] == ys;
    } else if x.None? {
      NoLeft(xs);
      NoLeft(ys);
    }
  }

  lemma {:induction false} MessagesAgree(blocks: seq<Block>)
    ensures ReceivedMessages(blocks) == Messages(blocks) <==> forall b :: b in blocks ==> Plain(b.message)
  {
    if blocks != [] {
      var m := blocks[0].message;
      MessagesAgree(blocks[1..]);
      ReceivedExactly(m);
      ListsAgree(Received(m), m, ReceivedMessages(blocks[1..]), Messages(blocks[1..]));
      HeadTail(blocks);
    }
  }

  /**
   * Events printed, cut anywhere and handed over come back once each, in order, with names and cursors trimmed;
   * keep-alives emit nothing. They come back as they were exactly when there was nothing to trim.
   */
  lemma EventsSurvive(blocks: seq<Block>, chunks: seq<string>)
    requires forall b :: b in blocks ==> Printable(b)
    requires Concat(chunks) == PrintStream(blocks)
    ensures var events := Collect(Segments(Concat(chunks), BLOCK_END), BlockEvent);
            && events == ReceivedMessages(blocks)
            && (events == Messages(blocks) <==> forall b :: b in blocks ==> Plain(b.message))
    ensures Remainder(Concat(chunks), BLOCK_END) == ""
  {
    StreamReadBack(blocks);
    MessagesAgree(blocks);
  }
}
