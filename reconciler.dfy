/**
 * How frontend/src/App.jsx folds the records of the event stream into the
 * message list: every `data: ` line is decoded and its `error`, `chunk` and
 * `done` fields rewrite the first bot message that is still streaming. This
 * module is the specification the reader's loops in `App` are proved
 * against; React's state updaters are applied as they are queued.
 */
module Reconciler {
  import opened Wrappers
  import Text
  import Json
  import Lines

  datatype Role = User | Bot

  /** A chat bubble; timestamps are not modelled. */
  datatype Message = Message(role: Role, content: string, isStreaming: bool)

  predicate IsStreamingBot(m: Message) {
    m.isStreaming && m.role == Bot
  }

  /** `messages.findIndex(m => m.isStreaming && m.role === 'bot')`, with -1 as `None`. */
  function FirstStreaming(msgs: seq<Message>): (r: Option<nat>)
    ensures r.Some? ==> r.value < |msgs| && IsStreamingBot(msgs[r.value])
    ensures r.Some? ==> forall j :: 0 <= j < r.value ==> !IsStreamingBot(msgs[j])
    ensures r.None? <==> forall j :: 0 <= j < |msgs| ==> !IsStreamingBot(msgs[j])
  {
    if msgs == [] then None
    else if IsStreamingBot(msgs[0]) then Some(0)
    else match FirstStreaming(msgs[1..])
      case None => None
      case Some(i) => Some(i + 1)
  }

  /** Every updater's body: replace the first streaming bot message, if there is one. */
  function Rewrite(msgs: seq<Message>, m: Message): seq<Message> {
    match FirstStreaming(msgs)
    case None => msgs
    case Some(i) => msgs[i := m]
  }

  /** The reader's state: the message list and `accumulatedContent`. */
  datatype Fold = Fold(messages: seq<Message>, accumulated: string)

  const DataPrefix: string := "data: "

  /**
   * One decoded record, in the order the source tests its fields; the flag
   * says that an `error` record ended the lines of this read.
   */
  function ApplyRecord(f: Fold, data: Json.Object): (Fold, bool) {
    var error := Json.Get(data, "error");
    if Json.Truthy(error) then
      (Fold(Rewrite(f.messages, Message(Bot, "Error: " + Json.ToText(error.value), false)), f.accumulated), true)
    else
      var chunk := Json.Get(data, "chunk");
      var done := Json.Get(data, "done");
      var f1 :=
        if Json.Truthy(chunk) then
          var acc := f.accumulated + Json.ToText(chunk.value);
          Fold(Rewrite(f.messages, Message(Bot, acc, !Json.Truthy(done))), acc)
        else f;
      var full := Json.Get(data, "full_response");
      var content := if Json.Truthy(full) then Json.ToText(full.value) else f1.accumulated;
      var f2 := if Json.Truthy(done) then Fold(Rewrite(f1.messages, Message(Bot, content, false)), f1.accumulated) else f1;
      (f2, false)
  }

  /** One line of a read: only `data: ` lines whose payload parses have an effect. */
  function StepLine(f: Fold, line: string): (Fold, bool) {
    if !Text.StartsWith(line, DataPrefix) then (f, false)
    else match Json.Decode(line[|DataPrefix|..])
      case None => (f, false)
      case Some(data) => ApplyRecord(f, data)
  }

  /** The inner `for` over the lines of one read, left by `break` after an error record. */
  function ProcessLines(f: Fold, lines: seq<string>): (Fold, bool)
    decreases |lines|
  {
    if lines == [] then (f, false)
    else
      var (g, stop) := StepLine(f, lines[0]);
      if stop then (g, true) else ProcessLines(g, lines[1..])
  }

  /** Every line applied in turn, without the `break`. */
  function FoldLines(f: Fold, lines: seq<string>): Fold
    decreases |lines|
  {
    if lines == [] then f else FoldLines(StepLine(f, lines[0]).0, lines[1..])
  }

  /** The `while` loop over the reads (`pieces`), with the buffer carried from read to read. */
  function ProcessReads(f: Fold, buffer: string, pieces: seq<string>): Fold
    decreases |pieces|
  {
    if pieces == [] then f
    else
      var text := buffer + pieces[0];
      ProcessReads(ProcessLines(f, Lines.CompleteLines(text)).0, Lines.Rest(text), pieces[1..])
  }

  /** A line that decodes to a record with a truthy `error`. */
  predicate IsStopLine(line: string) {
    && Text.StartsWith(line, DataPrefix)
    && var d := Json.Decode(line[|DataPrefix|..]);
    d.Some? && Json.Truthy(Json.Get(d.value, "error"))
  }

  /** A line the loop skips: not a `data: ` line, or one whose payload does not parse. */
  predicate IsInert(line: string) {
    !Text.StartsWith(line, DataPrefix) || Json.Decode(line[|DataPrefix|..]).None?
  }

  /** Every line after an error line is one the loop would skip anyway. */
  predicate StopsLast(lines: seq<string>) {
    forall i, j :: 0 <= i < j < |lines| && IsStopLine(lines[i]) ==> IsInert(lines[j])
  }

  // ---------------------------------------------------------------- single records

  /** A rewrite touches the first streaming bot message and nothing else. */
  lemma RewriteFrame(msgs: seq<Message>, m: Message)
    ensures |Rewrite(msgs, m)| == |msgs|
    ensures FirstStreaming(msgs).Some? ==> Rewrite(msgs, m)[FirstStreaming(msgs).value] == m
    ensures forall j :: 0 <= j < |msgs| && Some(j) != FirstStreaming(msgs) ==> Rewrite(msgs, m)[j] == msgs[j]
  {
  }

  /** Rewriting with a message that is still streaming keeps it the first streaming one. */
  lemma RewriteKeepsStreaming(msgs: seq<Message>, i: nat, content: string)
    requires FirstStreaming(msgs) == Some(i)
    ensures FirstStreaming(Rewrite(msgs, Message(Bot, content, true))) == Some(i)
  {
    var r := Rewrite(msgs, Message(Bot, content, true));
    FirstStreamingAt(r, i);
  }

  /** The first streaming message is the one before which none streams. */
  lemma {:induction false} FirstStreamingAt(msgs: seq<Message>, i: nat)
    requires i < |msgs| && IsStreamingBot(msgs[i])
    requires forall j :: 0 <= j < i ==> !IsStreamingBot(msgs[j])
    ensures FirstStreaming(msgs) == Some(i)
    decreases i
  {
    if i > 0 {
      FirstStreamingAt(msgs[1..], i - 1);
    }
  }

  /** Lines other than decodable `data: ` lines change nothing. */
  lemma InertLine(f: Fold, line: string)
    requires IsInert(line)
    ensures StepLine(f, line) == (f, false)
  {
  }

  /** A line stops the read's loop exactly when it is an error line. */
  lemma StopIffError(f: Fold, line: string)
    ensures StepLine(f, line).1 <==> IsStopLine(line)
  {
  }

  /**
   * An error record finalizes the streaming message `i` with `Error: ` and
   * the error text, whatever else the record holds, changes no other
   * message, keeps the accumulated text and stops the read.
   */
  lemma ErrorRecord(f: Fold, data: Json.Object, i: nat)
    requires Json.Truthy(Json.Get(data, "error")) && FirstStreaming(f.messages) == Some(i)
    ensures ApplyRecord(f, data) ==
      (Fold(f.messages[i := Message(Bot, "Error: " + Json.ToText(Json.Get(data, "error").value), false)],
            f.accumulated), true)
  {
  }

  /** A record without error and with a truthy chunk appends the chunk text to the accumulated text; otherwise it stays. */
  lemma ChunkAccumulates(f: Fold, data: Json.Object)
    requires !Json.Truthy(Json.Get(data, "error"))
    ensures Json.Truthy(Json.Get(data, "chunk")) ==>
      ApplyRecord(f, data).0.accumulated == f.accumulated + Json.ToText(Json.Get(data, "chunk").value)
    ensures !Json.Truthy(Json.Get(data, "chunk")) ==> ApplyRecord(f, data).0.accumulated == f.accumulated
  {
  }

  /**
   * A `done` record without a chunk finalizes the streaming message with
   * `full_response` when it is non-empty and with the accumulated text
   * otherwise.
   */
  lemma DoneRecord(f: Fold, data: Json.Object, i: nat)
    requires !Json.Truthy(Json.Get(data, "error")) && !Json.Truthy(Json.Get(data, "chunk"))
    requires Json.Truthy(Json.Get(data, "done")) && FirstStreaming(f.messages) == Some(i)
    ensures var full := Json.Get(data, "full_response");
      ApplyRecord(f, data) ==
        (Fold(f.messages[i := Message(Bot, if Json.Truthy(full) then Json.ToText(full.value) else f.accumulated, false)],
              f.accumulated), false)
  {
  }

  /**
   * A record with a non-empty chunk and `done` finalizes the only streaming
   * message with the accumulated text: the chunk's update already clears
   * `isStreaming`, so the `done` update finds no streaming message and
   * `full_response` is not used.
   */
  lemma ChunkAndDone(f: Fold, data: Json.Object, i: nat)
    requires !Json.Truthy(Json.Get(data, "error")) && Json.Truthy(Json.Get(data, "chunk"))
    requires Json.Truthy(Json.Get(data, "done")) && FirstStreaming(f.messages) == Some(i)
    requires forall j :: 0 <= j < |f.messages| && j != i ==> !IsStreamingBot(f.messages[j])
    ensures var acc := f.accumulated + Json.ToText(Json.Get(data, "chunk").value);
      ApplyRecord(f, data) == (Fold(f.messages[i := Message(Bot, acc, false)], acc), false)
  {
    var acc := f.accumulated + Json.ToText(Json.Get(data, "chunk").value);
    var m1 := f.messages[i := Message(Bot, acc, false)];
    assert FirstStreaming(m1).None? by {
      assert forall j :: 0 <= j < |m1| ==> !IsStreamingBot(m1[j]);
    }
  }

  /**
   * When a later bot message is streaming too, a record with a non-empty
   * chunk and `done` finalizes the first with the accumulated text, and the
   * `done` update then finalizes the next streaming one with `full_response`
   * when it is non-empty and with the accumulated text otherwise.
   */
  lemma ChunkAndDoneTwoStreaming(f: Fold, data: Json.Object, i: nat, k: nat)
    requires !Json.Truthy(Json.Get(data, "error")) && Json.Truthy(Json.Get(data, "chunk"))
    requires Json.Truthy(Json.Get(data, "done")) && FirstStreaming(f.messages) == Some(i)
    requires i < k < |f.messages| && IsStreamingBot(f.messages[k])
    requires forall j :: i < j < k ==> !IsStreamingBot(f.messages[j])
    ensures var acc := f.accumulated + Json.ToText(Json.Get(data, "chunk").value);
      var full := Json.Get(data, "full_response");
      var content := if Json.Truthy(full) then Json.ToText(full.value) else acc;
      ApplyRecord(f, data) ==
        (Fold(f.messages[i := Message(Bot, acc, false)][k := Message(Bot, content, false)], acc), false)
  {
    var acc := f.accumulated + Json.ToText(Json.Get(data, "chunk").value);
    var m1 := f.messages[i := Message(Bot, acc, false)];
    FirstStreamingAt(m1, k);
  }

  /** Once no bot message is streaming, a line changes no message. */
  lemma FrozenLine(f: Fold, line: string)
    requires FirstStreaming(f.messages).None?
    ensures StepLine(f, line).0.messages == f.messages
  {
  }

  /** Once no bot message is streaming, later lines change no message. */
  lemma {:induction false} FrozenAfterFinal(f: Fold, lines: seq<string>)
    requires FirstStreaming(f.messages).None?
    ensures FoldLines(f, lines).messages == f.messages
    ensures ProcessLines(f, lines).0.messages == f.messages
    decreases |lines|
  {
    if lines != [] {
      FrozenLine(f, lines[0]);
      FrozenAfterFinal(StepLine(f, lines[0]).0, lines[1..]);
    }
  }

  // ---------------------------------------------------------------- lines of one read

  /** An error line ends the read: the lines after it are dropped. */
  lemma {:induction false} ErrorDropsRestOfRead(f: Fold, lines: seq<string>, k: nat)
    requires k < |lines| && IsStopLine(lines[k])
    requires forall j :: 0 <= j < k ==> !IsStopLine(lines[j])
    ensures ProcessLines(f, lines) == (FoldLines(f, lines[..k + 1]), true)
    decreases k
  {
    StopIffError(f, lines[0]);
    if k > 0 {
      ErrorDropsRestOfRead(StepLine(f, lines[0]).0, lines[1..], k - 1);
      assert lines[1..][..k] == lines[..k + 1][1..];
    } else {
      assert lines[..1][1..] == [];
    }
  }

  /** Without an error line, the loop applies every line. */
  lemma {:induction false} ProcessLinesNoStop(f: Fold, lines: seq<string>)
    requires forall j :: 0 <= j < |lines| ==> !IsStopLine(lines[j])
    ensures ProcessLines(f, lines) == (FoldLines(f, lines), false)
    decreases |lines|
  {
    if lines != [] {
      StopIffError(f, lines[0]);
      ProcessLinesNoStop(StepLine(f, lines[0]).0, lines[1..]);
    }
  }

  /** Skipped lines leave the state as it is. */
  lemma {:induction false} FoldInertLines(f: Fold, lines: seq<string>)
    requires forall j :: 0 <= j < |lines| ==> IsInert(lines[j])
    ensures FoldLines(f, lines) == f
    decreases |lines|
  {
    if lines != [] {
      InertLine(f, lines[0]);
      FoldInertLines(f, lines[1..]);
    }
  }

  /** When only skipped lines follow an error line, the `break` loses nothing. */
  lemma {:induction false} ProcessLinesIsFold(f: Fold, lines: seq<string>)
    requires StopsLast(lines)
    ensures ProcessLines(f, lines).0 == FoldLines(f, lines)
    decreases |lines|
  {
    if lines != [] {
      StopIffError(f, lines[0]);
      var g := StepLine(f, lines[0]).0;
      if IsStopLine(lines[0]) {
        assert forall j :: 0 <= j < |lines[1..]| ==> IsInert(lines[1..][j]) by {
          forall j | 0 <= j < |lines[1..]| ensures IsInert(lines[1..][j]) {
            assert lines[1..][j] == lines[j + 1];
          }
        }
        FoldInertLines(g, lines[1..]);
      } else {
        assert StopsLast(lines[1..]) by {
          forall i, j | 0 <= i < j < |lines[1..]| && IsStopLine(lines[1..][i])
            ensures IsInert(lines[1..][j])
          {
            assert lines[1..][i] == lines[i + 1] && lines[1..][j] == lines[j + 1];
          }
        }
        ProcessLinesIsFold(g, lines[1..]);
      }
    }
  }

  lemma {:induction false} FoldLinesAppend(f: Fold, a: seq<string>, b: seq<string>)
    ensures FoldLines(f, a + b) == FoldLines(FoldLines(f, a), b)
    decreases |a|
  {
    if a == [] {
      assert a + b == b;
    } else {
      assert (a + b)[0] == a[0] && (a + b)[1..] == a[1..] + b;
      FoldLinesAppend(StepLine(f, a[0]).0, a[1..], b);
    }
  }

  lemma StopsLastParts(a: seq<string>, b: seq<string>)
    requires StopsLast(a + b)
    ensures StopsLast(a) && StopsLast(b)
  {
    forall i, j | 0 <= i < j < |a| && IsStopLine(a[i]) ensures IsInert(a[j]) {
      assert (a + b)[i] == a[i] && (a + b)[j] == a[j];
    }
    forall i, j | 0 <= i < j < |b| && IsStopLine(b[i]) ensures IsInert(b[j]) {
      assert (a + b)[|a| + i] == b[i] && (a + b)[|a| + j] == b[j];
    }
  }

  // ---------------------------------------------------------------- reads

  /**
   * How the text is cut into reads does not matter when only skipped lines
   * follow an error line: the reads fold the complete lines of all the text
   * received, and the partial line after the last newline is never processed.
   */
  lemma {:induction false} ReadsAsOneStream(f: Fold, buffer: string, pieces: seq<string>)
    requires '\n' !in buffer && StopsLast(Lines.CompleteLines(buffer + Text.Concat(pieces)))
    ensures ProcessReads(f, buffer, pieces) == FoldLines(f, Lines.CompleteLines(buffer + Text.Concat(pieces)))
    decreases |pieces|
  {
    if pieces == [] {
      assert buffer + Text.Concat(pieces) == buffer;
      Lines.NoLineWithoutNewline(buffer);
    } else {
      var x := buffer + pieces[0];
      var tail := Text.Concat(pieces[1..]);
      ConcatFront(pieces);
      assert buffer + Text.Concat(pieces) == x + tail;
      Lines.LinesOfTwoReads(x, tail);
      var l1 := Lines.CompleteLines(x);
      var l2 := Lines.CompleteLines(Lines.Rest(x) + tail);
      StopsLastParts(l1, l2);
      ProcessLinesIsFold(f, l1);
      Lines.LinesAndRest(x);
      ReadsAsOneStream(FoldLines(f, l1), Lines.Rest(x), pieces[1..]);
      FoldLinesAppend(f, l1, l2);
    }
  }

  lemma ConcatFront(pieces: seq<string>)
    requires pieces != []
    ensures Text.Concat(pieces) == pieces[0] + Text.Concat(pieces[1..])
  {
    assert pieces == [pieces[0]] + pieces[1..];
    Text.ConcatAppend([pieces[0]], pieces[1..]);
    assert Text.Concat([pieces[0]]) == Text.Concat([]) + pieces[0];
  }

  /** A record split across two reads is handled once, as the whole line. */
  lemma RecordSplitAcrossReads(f: Fold, line: string, a: string, b: string)
    requires '\n' !in line && a + b == line + "\n"
    ensures ProcessReads(f, "", [a, b]) == StepLine(f, line).0
  {
    ConcatFront([a, b]);
    ConcatFront([b]);
    assert [a, b][1..] == [b] && [b][1..] == [];
    assert "" + Text.Concat([a, b]) == line + "\n";
    assert Lines.Flatten([line]) + "" == line + "\n";
    Lines.LinesUnique([line], "", line + "\n");
    ReadsAsOneStream(f, "", [a, b]);
  }

  /**
   * The `break` after an error record leaves only the lines of that read:
   * the next line of the same read is skipped, a line of the next read is
   * handled.
   */
  lemma ErrorKeepsReading(f: Fold, e: string, a: string, b: string)
    requires '\n' !in e && '\n' !in a && '\n' !in b && IsStopLine(e)
    ensures ProcessReads(f, "", [e + "\n" + a + "\n", b + "\n"]) == StepLine(StepLine(f, e).0, b).0
  {
    var x := e + "\n" + a + "\n";
    assert [e, a][1..] == [a] && [a][1..] == [];
    assert Lines.Flatten([a]) == a + "\n" + "";
    assert Lines.Flatten([e, a]) == e + "\n" + (a + "\n" + "");
    assert Lines.Flatten([e, a]) + "" == x;
    Lines.LinesUnique([e, a], "", x);
    StopIffError(f, e);
    var g := StepLine(f, e).0;
    assert ProcessLines(f, [e, a]) == (g, true);
    var y := "" + (b + "\n");
    assert [b][1..] == [];
    assert Lines.Flatten([b]) == b + "\n" + "";
    assert Lines.Flatten([b]) + "" == y;
    Lines.LinesUnique([b], "", y);
    assert ProcessLines(g, [b]).0 == StepLine(g, b).0;
    var pieces := [x, b + "\n"];
    assert pieces[0] == x && pieces[1..] == [b + "\n"] && pieces[1..][1..] == [];
    assert "" + x == x && Lines.CompleteLines(x) == [e, a] && Lines.Rest(x) == "";
    assert ProcessReads(f, "", pieces) == ProcessReads(g, "", [b + "\n"]);
    assert ProcessReads(g, "", [b + "\n"]) == ProcessReads(StepLine(g, b).0, "", []);
  }

  /** A last read that brings no newline completes no line and changes nothing. */
  lemma {:induction false} TrailingPartialIgnored(f: Fold, buffer: string, pieces: seq<string>, partial: string)
    requires '\n' !in buffer && '\n' !in partial
    ensures ProcessReads(f, buffer, pieces + [partial]) == ProcessReads(f, buffer, pieces)
    decreases |pieces|
  {
    if pieces == [] {
      assert pieces + [partial] == [partial];
      Lines.NoLineWithoutNewline(buffer + partial);
    } else {
      var x := buffer + pieces[0];
      assert (pieces + [partial])[0] == pieces[0] && (pieces + [partial])[1..] == pieces[1..] + [partial];
      Lines.LinesAndRest(x);
      TrailingPartialIgnored(ProcessLines(f, Lines.CompleteLines(x)).0, Lines.Rest(x), pieces[1..], partial);
    }
  }

  // ---------------------------------------------------------------- accumulated text

  /** The text a line adds to `accumulatedContent`: the chunk of a record without error. */
  function ChunkText(line: string): string {
    if !Text.StartsWith(line, DataPrefix) then ""
    else match Json.Decode(line[|DataPrefix|..])
      case None => ""
      case Some(data) =>
        if Json.Truthy(Json.Get(data, "error")) || !Json.Truthy(Json.Get(data, "chunk")) then ""
        else Json.ToText(Json.Get(data, "chunk").value)
  }

  function ChunkTexts(lines: seq<string>): string {
    if lines == [] then "" else ChunkText(lines[0]) + ChunkTexts(lines[1..])
  }

  lemma StepAccumulates(f: Fold, line: string)
    ensures StepLine(f, line).0.accumulated == f.accumulated + ChunkText(line)
  {
    if Text.StartsWith(line, DataPrefix) {
      var d := Json.Decode(line[|DataPrefix|..]);
      if d.Some? && !Json.Truthy(Json.Get(d.value, "error")) {
        ChunkAccumulates(f, d.value);
      }
    }
  }

  /** The accumulated text grows by each chunk, in the order the lines arrive. */
  lemma {:induction false} AccumulatesInOrder(f: Fold, lines: seq<string>)
    ensures FoldLines(f, lines).accumulated == f.accumulated + ChunkTexts(lines)
    decreases |lines|
  {
    if lines != [] {
      StepAccumulates(f, lines[0]);
      AccumulatesInOrder(StepLine(f, lines[0]).0, lines[1..]);
    }
  }
}
