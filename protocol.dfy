/**
 * The two ends of the streaming protocol together: the records app.py's
 * `generate()` sends, cut into reads in any way, folded by the reader of
 * frontend/src/App.jsx. A successful reply ends with the streaming message
 * holding `full_response`; a failed one with the error text.
 */
module Protocol {
  import opened Wrappers
  import Text
  import Json
  import Lines
  import Server
  import App
  import opened Reconciler

  /** The bytes of the response body, as text. */
  function StreamText(reply: Server.Reply): string {
    Text.Concat(Server.Frames(Server.Emitted(reply)))
  }

  /** The lines of a stream of frames: each record's data line, then a blank line. */
  function DataLines(ps: seq<Json.Object>): (r: seq<string>)
    ensures |r| == 2 * |ps|
  {
    if ps == [] then [] else DataLines(ps[..|ps| - 1]) + ["data: " + Json.Encode(ps[|ps| - 1]), ""]
  }

  lemma {:induction false} DataLinesAt(ps: seq<Json.Object>, k: nat)
    requires k < |ps|
    ensures DataLines(ps)[2 * k] == "data: " + Json.Encode(ps[k]) && DataLines(ps)[2 * k + 1] == ""
    decreases |ps|
  {
    if k < |ps| - 1 {
      DataLinesAt(ps[..|ps| - 1], k);
      assert ps[..|ps| - 1][k] == ps[k];
    }
  }

  lemma {:induction false} FlattenDataLines(ps: seq<Json.Object>)
    ensures Lines.Flatten(DataLines(ps)) == Text.Concat(Server.Frames(ps))
    ensures Lines.NoNewlines(DataLines(ps))
    decreases |ps|
  {
    if ps != [] {
      var init, p := ps[..|ps| - 1], ps[|ps| - 1];
      var pair := ["data: " + Json.Encode(p), ""];
      FlattenDataLines(init);
      FrameLines(p);
      assert init + [p] == ps;
      Server.FramesSnoc(init, p);
      Server.ConcatSnoc(Server.Frames(init), Server.Frame(p));
      FlattenStep(DataLines(init), pair, Text.Concat(Server.Frames(init)), Server.Frame(p));
    }
  }

  lemma FlattenStep(a: seq<string>, pair: seq<string>, fa: string, frame: string)
    requires Lines.Flatten(a) == fa && Lines.Flatten(pair) == frame
    requires Lines.NoNewlines(a) && Lines.NoNewlines(pair)
    ensures Lines.Flatten(a + pair) == fa + frame && Lines.NoNewlines(a + pair)
  {
    Lines.FlattenAppend(a, pair);
    Lines.NoNewlinesAppend(a, pair);
  }

  /** The two lines of one frame. */
  lemma FrameLines(p: Json.Object)
    ensures Lines.Flatten(["data: " + Json.Encode(p), ""]) == Server.Frame(p)
    ensures Lines.NoNewlines(["data: " + Json.Encode(p), ""])
  {
    Server.FrameIsDataLine(p);
    var d := "data: " + Json.Encode(p);
    assert [d, ""][1..] == [""] && [""][1..] == [];
    assert Lines.Flatten([""]) == "" + "\n" + "";
    assert Lines.Flatten([d, ""]) == d + "\n" + ("" + "\n" + "");
  }

  /** The reader takes out exactly the data lines and blank lines; nothing is left in the buffer. */
  lemma StreamLines(ps: seq<Json.Object>)
    ensures Lines.CompleteLines(Text.Concat(Server.Frames(ps))) == DataLines(ps)
    ensures Lines.Rest(Text.Concat(Server.Frames(ps))) == ""
  {
    FlattenDataLines(ps);
    Lines.LinesUnique(DataLines(ps), "", Text.Concat(Server.Frames(ps)));
  }

  /** A data line stops a read exactly when its record has a truthy `error`; it always parses. */
  lemma DataLineStep(f: Fold, p: Json.Object)
    ensures StepLine(f, "data: " + Json.Encode(p)) == ApplyRecord(f, p)
    ensures IsStopLine("data: " + Json.Encode(p)) <==> Json.Truthy(Json.Get(p, "error"))
    ensures !IsInert("data: " + Json.Encode(p))
  {
    Server.FrameIsDataLine(p);
    assert Text.StartsWith("data: " + Json.Encode(p), DataPrefix);
  }

  /** The records, folded in order. */
  function FoldRecords(f: Fold, ps: seq<Json.Object>): Fold {
    if ps == [] then f else ApplyRecord(FoldRecords(f, ps[..|ps| - 1]), ps[|ps| - 1]).0
  }

  lemma {:induction false} FoldDataLines(f: Fold, ps: seq<Json.Object>)
    ensures FoldLines(f, DataLines(ps)) == FoldRecords(f, ps)
    decreases |ps|
  {
    if ps != [] {
      var init, p := ps[..|ps| - 1], ps[|ps| - 1];
      FoldDataLines(f, init);
      var dl := "data: " + Json.Encode(p);
      FoldLinesAppend(f, DataLines(init), [dl, ""]);
      var g := FoldRecords(f, init);
      var h := ApplyRecord(g, p).0;
      DataLineStep(g, p);
      InertLine(h, "");
      assert [dl, ""][1..] == [""] && [""][1..] == [];
      assert FoldLines(h, [""]) == h;
      assert FoldLines(g, [dl, ""]) == FoldLines(h, [""]);
    }
  }

  /** No record before the last one of a reply has an `error` field. */
  lemma NoErrorBeforeLast(reply: Server.Reply)
    ensures var ps := Server.Emitted(reply);
      forall k :: 0 <= k < |ps| - 1 ==> Json.Get(ps[k], "error").None?
  {
    var ps := Server.Emitted(reply);
    Server.EmittedShape(reply);
    forall k | 0 <= k < |ps| - 1 ensures Json.Get(ps[k], "error").None? {
      assert ps[k] == Server.ChunkPayload(Server.NonEmpty(reply.chunks)[k]);
    }
  }

  /** Among the lines of records none of which but the last has an error, only the last data line can stop a read. */
  lemma StopLineAt(ps: seq<Json.Object>, i: nat)
    requires forall k :: 0 <= k < |ps| - 1 ==> Json.Get(ps[k], "error").None?
    requires i < |DataLines(ps)| && IsStopLine(DataLines(ps)[i])
    ensures i == |DataLines(ps)| - 2
  {
    var k := i / 2;
    DataLinesAt(ps, k);
    DataLineStep(Fold([], ""), ps[k]);
    assert i == 2 * k || i == 2 * k + 1;
  }

  /** Only the last record of a reply may carry an error, and a blank line follows it. */
  lemma ReplyStopsLast(reply: Server.Reply)
    ensures StopsLast(DataLines(Server.Emitted(reply)))
  {
    var ps := Server.Emitted(reply);
    var r := DataLines(ps);
    NoErrorBeforeLast(reply);
    forall i, j | 0 <= i < j < |r| && IsStopLine(r[i]) ensures IsInert(r[j]) {
      StopLineAt(ps, i);
      DataLinesAt(ps, |ps| - 1);
    }
  }

  /** However the body is cut into reads, the reader folds the records of the reply in order. */
  lemma AnyReadsFoldRecords(f: Fold, reply: Server.Reply, pieces: seq<string>)
    requires Text.Concat(pieces) == StreamText(reply)
    ensures ProcessReads(f, "", pieces) == FoldRecords(f, Server.Emitted(reply))
  {
    var ps := Server.Emitted(reply);
    StreamLines(ps);
    ReplyStopsLast(reply);
    assert "" + Text.Concat(pieces) == StreamText(reply);
    ReadsAsOneStream(f, "", pieces);
    FoldDataLines(f, ps);
  }

  // ---------------------------------------------------------------- the records' effect

  /** The streaming message is `i`; the others are those of `msgs`. */
  predicate StreamingAt(g: seq<Message>, msgs: seq<Message>, i: nat) {
    |g| == |msgs| && FirstStreaming(g) == Some(i)
    && forall j :: 0 <= j < |msgs| && j != i ==> g[j] == msgs[j]
  }

  lemma ChunkRecord(f: Fold, t: string, msgs: seq<Message>, i: nat)
    requires t != "" && StreamingAt(f.messages, msgs, i)
    ensures ApplyRecord(f, Server.ChunkPayload(t)).0 ==
      Fold(f.messages[i := Message(Bot, f.accumulated + t, true)], f.accumulated + t)
    ensures StreamingAt(ApplyRecord(f, Server.ChunkPayload(t)).0.messages, msgs, i)
  {
    var p := Server.ChunkPayload(t);
    assert Json.Get(p, "error").None?;
    assert Json.Get(p, "chunk") == Some(Json.Str(t));
    assert Json.Get(p, "done") == Some(Json.Bool(false));
    assert Json.Get(p, "full_response").None?;
    RewriteKeepsStreaming(f.messages, i, f.accumulated + t);
  }

  /** The chunk records stream the text into message `i` and touch nothing else. */
  lemma {:induction false} ChunkRecords(msgs: seq<Message>, i: nat, sent: seq<string>)
    requires FirstStreaming(msgs) == Some(i)
    requires forall k :: 0 <= k < |sent| ==> sent[k] != ""
    ensures var g := FoldRecords(Fold(msgs, ""), Server.ChunkPayloads(sent));
      StreamingAt(g.messages, msgs, i) && g.accumulated == Text.Concat(sent)
    decreases |sent|
  {
    var ps := Server.ChunkPayloads(sent);
    if sent != [] {
      var init, t := sent[..|sent| - 1], sent[|sent| - 1];
      ChunkRecords(msgs, i, init);
      assert ps[..|ps| - 1] == Server.ChunkPayloads(init);
      ChunkRecord(FoldRecords(Fold(msgs, ""), Server.ChunkPayloads(init)), t, msgs, i);
    }
  }

  /** The records of a reply: its chunk records, then the closing one. */
  lemma LastRecord(f: Fold, reply: Server.Reply)
    ensures var ps := Server.Emitted(reply);
      FoldRecords(f, ps) == ApplyRecord(FoldRecords(f, Server.ChunkPayloads(Server.NonEmpty(reply.chunks))), ps[|ps| - 1]).0
  {
    var ps := Server.Emitted(reply);
    assert ps[..|ps| - 1] == Server.ChunkPayloads(Server.NonEmpty(reply.chunks));
  }

  /** The completion record finalizes the streaming message with `full_response`. */
  lemma DoneFinalizes(g: Fold, msgs: seq<Message>, i: nat, full: string)
    requires StreamingAt(g.messages, msgs, i) && full != ""
    ensures ApplyRecord(g, Server.DonePayload(full)).0.messages == msgs[i := Message(Bot, full, false)]
  {
    var p := Server.DonePayload(full);
    assert p[..2] == [p[0], p[1]] && p[..2][..1] == [p[0]];
    assert Json.Get(p, "error").None?;
    assert Json.Get(p, "chunk") == Some(Json.Str(""));
    assert Json.Get(p, "done") == Some(Json.Bool(true));
    assert Json.Get(p, "full_response") == Some(Json.Str(full));
    DoneRecord(g, p, i);
  }

  /** With nothing streamed and no `full_response`, the completion record leaves the empty text. */
  lemma DoneFinalizesEmpty(g: Fold, msgs: seq<Message>, i: nat)
    requires StreamingAt(g.messages, msgs, i) && g.accumulated == ""
    ensures ApplyRecord(g, Server.DonePayload("")).0.messages == msgs[i := Message(Bot, "", false)]
  {
    var p := Server.DonePayload("");
    assert p[..2] == [p[0], p[1]] && p[..2][..1] == [p[0]];
    assert Json.Get(p, "error").None?;
    assert Json.Get(p, "chunk") == Some(Json.Str(""));
    assert Json.Get(p, "done") == Some(Json.Bool(true));
    assert Json.Get(p, "full_response") == Some(Json.Str(""));
    DoneRecord(g, p, i);
  }

  /** The error record of a failed reply. */
  lemma ErrorFinalizes(g: Fold, msgs: seq<Message>, i: nat, e: string)
    requires StreamingAt(g.messages, msgs, i)
    ensures e != "" ==> ApplyRecord(g, Server.ErrorPayload(e)).0.messages == msgs[i := Message(Bot, "Error: " + e, false)]
    ensures e == "" ==> ApplyRecord(g, Server.ErrorPayload(e)).0.messages == msgs[i := Message(Bot, g.accumulated, false)]
  {
    var p := Server.ErrorPayload(e);
    assert p[..1] == [p[0]];
    assert Json.Get(p, "error") == Some(Json.Str(e));
    assert Json.Get(p, "chunk").None?;
    assert Json.Get(p, "done") == Some(Json.Bool(true));
    assert Json.Get(p, "full_response").None?;
    if e != "" {
      ErrorRecord(g, p, i);
    } else {
      DoneRecord(g, p, i);
    }
  }

  /** The records of a successful reply leave the streaming message with the whole reply text. */
  lemma SuccessRecords(msgs: seq<Message>, i: nat, chunks: seq<string>)
    requires FirstStreaming(msgs) == Some(i)
    ensures FoldRecords(Fold(msgs, ""), Server.Emitted(Server.Yields(chunks))).messages
         == msgs[i := Message(Bot, Text.Concat(chunks), false)]
  {
    var sent := Server.NonEmpty(chunks);
    var f := Fold(msgs, "");
    LastRecord(f, Server.Yields(chunks));
    ChunkRecords(msgs, i, sent);
    Server.SuccessEndsWithFullResponse(chunks);
    var g := FoldRecords(f, Server.ChunkPayloads(sent));
    if Text.Concat(sent) != "" {
      DoneFinalizes(g, msgs, i, Text.Concat(sent));
    } else {
      DoneFinalizesEmpty(g, msgs, i);
    }
  }

  /** The records of a failed reply leave the error text, or the streamed text when the error text is empty. */
  lemma FailureRecords(msgs: seq<Message>, i: nat, chunks: seq<string>, e: string)
    requires FirstStreaming(msgs) == Some(i)
    ensures var r := FoldRecords(Fold(msgs, ""), Server.Emitted(Server.FailsAfter(chunks, e))).messages;
      && (e != "" ==> r == msgs[i := Message(Bot, "Error: " + e, false)])
      && (e == "" ==> r == msgs[i := Message(Bot, Text.Concat(chunks), false)])
  {
    var sent := Server.NonEmpty(chunks);
    var f := Fold(msgs, "");
    LastRecord(f, Server.FailsAfter(chunks, e));
    ChunkRecords(msgs, i, sent);
    Server.FailureEndsWithOneError(chunks, e);
    Server.NonEmptyConcat(chunks);
    ErrorFinalizes(FoldRecords(f, Server.ChunkPayloads(sent)), msgs, i, e);
  }

  /**
   * A successful reply, cut into reads in any way, leaves the message that
   * was streaming with the whole reply text, no longer streaming, and every
   * other message as it was.
   */
  lemma SuccessfulReply(msgs: seq<Message>, i: nat, chunks: seq<string>, pieces: seq<string>)
    requires FirstStreaming(msgs) == Some(i)
    requires Text.Concat(pieces) == StreamText(Server.Yields(chunks))
    ensures ProcessReads(Fold(msgs, ""), "", pieces).messages == msgs[i := Message(Bot, Text.Concat(chunks), false)]
  {
    AnyReadsFoldRecords(Fold(msgs, ""), Server.Yields(chunks), pieces);
    SuccessRecords(msgs, i, chunks);
  }

  /**
   * A reply that fails leaves `Error: ` and the error text in the streaming
   * message; when the error text is empty the `error` field is falsy, and
   * the `done` field finalizes the message with the text streamed so far.
   */
  lemma FailedReply(msgs: seq<Message>, i: nat, chunks: seq<string>, e: string, pieces: seq<string>)
    requires FirstStreaming(msgs) == Some(i)
    requires Text.Concat(pieces) == StreamText(Server.FailsAfter(chunks, e))
    ensures e != "" ==> ProcessReads(Fold(msgs, ""), "", pieces).messages == msgs[i := Message(Bot, "Error: " + e, false)]
    ensures e == "" ==> ProcessReads(Fold(msgs, ""), "", pieces).messages == msgs[i := Message(Bot, Text.Concat(chunks), false)]
  {
    AnyReadsFoldRecords(Fold(msgs, ""), Server.FailsAfter(chunks, e), pieces);
    FailureRecords(msgs, i, chunks, e);
  }

  /**
   * A whole turn against a server whose reply succeeds. From a list with no
   * streaming message the list gains the user text and the bot reply, and
   * no message is left streaming. From a list that still holds a streaming
   * bot message, `findIndex` finds that older one: it receives the reply,
   * and the new bot message stays empty and streaming.
   */
  lemma {:induction false} FullTurn(msgs: seq<Message>, text: string, chunks: seq<string>, pieces: seq<string>)
    requires !(|msgs| > 0 && msgs[|msgs| - 1].role == User && msgs[|msgs| - 1].content == text)
    requires Text.Concat(pieces) == StreamText(Server.Yields(chunks))
    ensures FirstStreaming(msgs).None? ==>
      App.TurnMessages(msgs, text, App.Stream(pieces, false))
        == msgs + [Message(User, text, false), Message(Bot, Text.Concat(chunks), false)]
      && FirstStreaming(App.TurnMessages(msgs, text, App.Stream(pieces, false))).None?
    ensures FirstStreaming(msgs).Some? ==>
      App.TurnMessages(msgs, text, App.Stream(pieces, false))
        == msgs[FirstStreaming(msgs).value := Message(Bot, Text.Concat(chunks), false)]
           + [Message(User, text, false), Message(Bot, "", true)]
  {
    var start := msgs + [Message(User, text, false), Message(Bot, "", true)];
    var reply := Message(Bot, Text.Concat(chunks), false);
    StreamTurn(msgs, text, pieces);
    match FirstStreaming(msgs)
    case None =>
      SuccessfulReply(start, |msgs| + 1, chunks, pieces);
      NothingStreams(msgs, text, reply);
    case Some(i) =>
      SuccessfulReply(start, i, chunks, pieces);
      StaleRewrite(msgs, text, i, reply);
  }

  /** A turn whose body is read in full starts from the two appended messages and folds the reads. */
  lemma StreamTurn(msgs: seq<Message>, text: string, pieces: seq<string>)
    requires !(|msgs| > 0 && msgs[|msgs| - 1].role == User && msgs[|msgs| - 1].content == text)
    ensures var start := msgs + [Message(User, text, false), Message(Bot, "", true)];
      App.TurnMessages(msgs, text, App.Stream(pieces, false)) == ProcessReads(Fold(start, ""), "", pieces).messages
      && FirstStreaming(start) == if FirstStreaming(msgs).None? then Some(|msgs| + 1) else FirstStreaming(msgs)
  {
    App.AppendedStreaming(msgs, text);
  }

  /** Replacing an old message of the list and then appending equals appending and then replacing. */
  lemma StaleRewrite(msgs: seq<Message>, text: string, i: nat, m: Message)
    requires i < |msgs|
    ensures (msgs + [Message(User, text, false), Message(Bot, "", true)])[i := m]
         == msgs[i := m] + [Message(User, text, false), Message(Bot, "", true)]
  {
  }

  /**
   * A turn whose request is refused, or answered with a status that is not
   * `ok`, puts the connection error into the first streaming message: the
   * new one when no other streams, otherwise the older one, and then the
   * new bot message stays empty and streaming.
   */
  lemma {:induction false} RefusedTurn(msgs: seq<Message>, text: string)
    requires !(|msgs| > 0 && msgs[|msgs| - 1].role == User && msgs[|msgs| - 1].content == text)
    ensures FirstStreaming(msgs).None? ==>
      App.TurnMessages(msgs, text, App.Refused)
        == msgs + [Message(User, text, false), Message(Bot, App.ConnectionError, false)]
    ensures FirstStreaming(msgs).Some? ==>
      App.TurnMessages(msgs, text, App.Refused)
        == msgs[FirstStreaming(msgs).value := Message(Bot, App.ConnectionError, false)]
           + [Message(User, text, false), Message(Bot, "", true)]
  {
    App.AppendedStreaming(msgs, text);
    match FirstStreaming(msgs)
    case None => NothingStreams(msgs, text, Message(Bot, App.ConnectionError, false));
    case Some(i) => StaleRewrite(msgs, text, i, Message(Bot, App.ConnectionError, false));
  }

  /**
   * A body that ends before any record arrives leaves the new bot message
   * empty and still streaming: nothing after the read loop finalizes it.
   */
  lemma {:induction false} EmptyBodyLeavesStreaming(msgs: seq<Message>, text: string)
    requires FirstStreaming(msgs).None?
    requires !(|msgs| > 0 && msgs[|msgs| - 1].role == User && msgs[|msgs| - 1].content == text)
    ensures App.TurnMessages(msgs, text, App.Stream([], false))
         == msgs + [Message(User, text, false), Message(Bot, "", true)]
    ensures FirstStreaming(App.TurnMessages(msgs, text, App.Stream([], false))) == Some(|msgs| + 1)
  {
    App.AppendedStreaming(msgs, text);
  }

  /**
   * The list with a streaming message left behind is reachable: a first turn
   * whose body ends before any record leaves its bot message streaming, and
   * the successful reply of the next turn then goes into that first bot
   * message, while the second one stays empty and streaming.
   */
  lemma StaleBubbleTakesNextReply(msgs: seq<Message>, first: string, second: string, chunks: seq<string>, pieces: seq<string>)
    requires FirstStreaming(msgs).None?
    requires !(|msgs| > 0 && msgs[|msgs| - 1].role == User && msgs[|msgs| - 1].content == first)
    requires Text.Concat(pieces) == StreamText(Server.Yields(chunks))
    ensures var m := App.TurnMessages(msgs, first, App.Stream([], false));
      && m == msgs + [Message(User, first, false), Message(Bot, "", true)]
      && App.TurnMessages(m, second, App.Stream(pieces, false))
         == msgs + [Message(User, first, false), Message(Bot, Text.Concat(chunks), false),
                    Message(User, second, false), Message(Bot, "", true)]
  {
    EmptyBodyLeavesStreaming(msgs, first);
    var m := msgs + [Message(User, first, false), Message(Bot, "", true)];
    FullTurn(m, second, chunks, pieces);
    StaleFour(msgs, first, second, Message(Bot, Text.Concat(chunks), false));
  }

  lemma StaleFour(msgs: seq<Message>, first: string, second: string, reply: Message)
    ensures (msgs + [Message(User, first, false), Message(Bot, "", true)])[|msgs| + 1 := reply]
              + [Message(User, second, false), Message(Bot, "", true)]
         == msgs + [Message(User, first, false), reply, Message(User, second, false), Message(Bot, "", true)]
  {
  }

  /** `response.ok`: a status in the 2xx range. */
  predicate StatusOk(status: nat) {
    200 <= status < 300
  }

  /**
   * What the client's `fetch` makes of a server response that arrives in
   * full: an answer whose status is not `ok` is thrown into the `catch`; an
   * event stream is read in pieces that together are its frames. The body
   * of an `ok` JSON answer, which the streaming endpoint never sends, is
   * read as some stream.
   */
  predicate Delivers(resp: Server.Response, t: App.Transport) {
    match resp
    case Reply(status, _) => if StatusOk(status) then t.Stream? && !t.broken else t == App.Refused
    case EventStream(frames) => t.Stream? && !t.broken && Text.Concat(t.pieces) == Text.Concat(frames)
  }

  /**
   * With the backend as written, the 500 answer to a request for a session
   * the server has not stored reaches the client as a refused request, and
   * the turn ends with the user text and the connection error.
   */
  lemma {:induction false} AsWrittenTurnFails(msgs: seq<Message>, text: string, t: App.Transport)
    requires !(|msgs| > 0 && msgs[|msgs| - 1].role == User && msgs[|msgs| - 1].content == text)
    requires Delivers(Server.ErrorReply(Server.AsWritten.startError.value), t)
    ensures FirstStreaming(msgs).None? ==>
      App.TurnMessages(msgs, text, t)
        == msgs + [Message(User, text, false), Message(Bot, App.ConnectionError, false)]
    ensures FirstStreaming(msgs).Some? ==>
      App.TurnMessages(msgs, text, t)
        == msgs[FirstStreaming(msgs).value := Message(Bot, App.ConnectionError, false)]
           + [Message(User, text, false), Message(Bot, "", true)]
  {
    RefusedTurn(msgs, text);
  }

  /**
   * A whole turn against the server as written, for a session it has not
   * stored: the client's request passes validation, `chat_stream` answers
   * 500 and stores nothing, and however that answer is delivered the
   * connection error goes into the first streaming message.
   */
  method AsWrittenTurn(s: Server.ChatServer, msgs: seq<Message>, text: string, session: nat, personality: string,
                       reply: Server.Reply) returns (resp: Server.Response)
    requires text != "" && Json.Str(App.SessionName(session)) !in s.sessions
    requires !(|msgs| > 0 && msgs[|msgs| - 1].role == User && msgs[|msgs| - 1].content == text)
    modifies s
    ensures resp == Server.ErrorReply(Server.AsWritten.startError.value) && !StatusOk(resp.status)
    ensures s.sessions == old(s.sessions)
    ensures forall t :: Delivers(resp, t) ==> App.TurnMessages(msgs, text, t) == FailedTurn(msgs, text)
  {
    RequestAccepted(text, session, personality);
    resp := s.ChatStream(Some(App.RequestBody(text, session, personality)), Server.AsWritten, reply);
    forall t | Delivers(resp, t)
      ensures App.TurnMessages(msgs, text, t) == FailedTurn(msgs, text)
    {
      AsWrittenTurnFails(msgs, text, t);
    }
  }

  /** The list a turn ends with when the connection error is written, as `RefusedTurn` states it. */
  function FailedTurn(msgs: seq<Message>, text: string): seq<Message> {
    match FirstStreaming(msgs)
    case None => msgs + [Message(User, text, false), Message(Bot, App.ConnectionError, false)]
    case Some(i) => msgs[i := Message(Bot, App.ConnectionError, false)] + [Message(User, text, false), Message(Bot, "", true)]
  }

  lemma NothingStreams(msgs: seq<Message>, text: string, reply: Message)
    requires FirstStreaming(msgs).None? && !reply.isStreaming
    ensures var r := (msgs + [Message(User, text, false), Message(Bot, "", true)])[|msgs| + 1 := reply];
      r == msgs + [Message(User, text, false), reply] && FirstStreaming(r).None?
  {
    var r := (msgs + [Message(User, text, false), Message(Bot, "", true)])[|msgs| + 1 := reply];
    assert r == msgs + [Message(User, text, false), reply];
    assert forall j :: 0 <= j < |r| ==> !IsStreamingBot(r[j]);
  }

  /** The body the client posts for a non-blank input passes the server's validation under its session id. */
  lemma RequestAccepted(text: string, session: nat, personality: string)
    requires text != ""
    ensures Server.Validate(Some(App.RequestBody(text, session, personality))) == Ok(Json.Str(App.SessionName(session)))
  {
    var body := App.RequestBody(text, session, personality);
    assert body[..2] == [body[0], body[1]] && body[..2][..1] == [body[0]];
    assert Json.Get(body, "message") == Some(Json.Str(text));
    assert Json.Get(body, "session_id") == Some(Json.Str(App.SessionName(session)));
  }
}
