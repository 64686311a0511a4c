/**
 * The Flask endpoints of app.py: request validation, the `chat_sessions`
 * table filled by get-or-create, and `generate()`, which turns the model's
 * chunk texts into `data: {...}` records of the event stream. The language
 * model is a parameter: how starting a chat ends, whether the priming
 * message goes through, and the chunk texts a reply yields before it ends
 * or fails.
 */
module Server {
  import opened Wrappers
  import Text
  import Json

  // ---------------------------------------------------------------- records

  /** The chunk texts of one streamed reply, and whether the iteration raised after them. */
  datatype Reply = Yields(chunks: seq<string>) | FailsAfter(chunks: seq<string>, error: string)

  function ChunkPayload(t: string): Json.Object {
    [("chunk", Json.Str(t)), ("done", Json.Bool(false))]
  }

  function DonePayload(full: string): Json.Object {
    [("chunk", Json.Str("")), ("done", Json.Bool(true)), ("full_response", Json.Str(full))]
  }

  function ErrorPayload(e: string): Json.Object {
    [("error", Json.Str(e)), ("done", Json.Bool(true))]
  }

  /** `f"data: {json.dumps(payload)}\n\n"`. */
  function Frame(p: Json.Object): string {
    "data: " + Json.Encode(p) + "\n\n"
  }

  function Frames(ps: seq<Json.Object>): (r: seq<string>)
    ensures |r| == |ps| && forall k :: 0 <= k < |ps| ==> r[k] == Frame(ps[k])
  {
    if ps == [] then [] else Frames(ps[..|ps| - 1]) + [Frame(ps[|ps| - 1])]
  }

  /** The chunk texts that pass `if chunk.text:`, in order. */
  function NonEmpty(ts: seq<string>): (r: seq<string>)
    ensures |r| <= |ts|
    ensures forall k :: 0 <= k < |r| ==> r[k] != ""
  {
    if ts == [] then []
    else
      var t := ts[|ts| - 1];
      NonEmpty(ts[..|ts| - 1]) + (if t != "" then [t] else [])
  }

  function ChunkPayloads(ts: seq<string>): (r: seq<Json.Object>)
    ensures |r| == |ts| && forall k :: 0 <= k < |ts| ==> r[k] == ChunkPayload(ts[k])
  {
    seq(|ts|, k requires 0 <= k < |ts| => ChunkPayload(ts[k]))
  }

  /**
   * Reference definition of what `generate()` sends: one chunk record per
   * non-empty chunk text, then either the completion record carrying all the
   * text or the error record.
   */
  function Emitted(reply: Reply): seq<Json.Object> {
    var sent := NonEmpty(reply.chunks);
    ChunkPayloads(sent) + [match reply
      case Yields(_) => DonePayload(Text.Concat(sent))
      case FailsAfter(_, e) => ErrorPayload(e)]
  }

  /** Dropping the empty chunk texts does not change the text they make up. */
  lemma {:induction false} NonEmptyConcat(ts: seq<string>)
    ensures Text.Concat(NonEmpty(ts)) == Text.Concat(ts)
    decreases |ts|
  {
    if ts != [] {
      var t := ts[|ts| - 1];
      var init := ts[..|ts| - 1];
      NonEmptyConcat(init);
      Text.ConcatAppend(NonEmpty(init), if t != "" then [t] else []);
      if t != "" {
        assert Text.Concat([t]) == Text.Concat([]) + t;
      }
    }
  }

  lemma NonEmptyStep(chunks: seq<string>, i: nat)
    requires i < |chunks|
    ensures NonEmpty(chunks[..i + 1]) == NonEmpty(chunks[..i]) + (if chunks[i] != "" then [chunks[i]] else [])
  {
    assert chunks[..i + 1][..i] == chunks[..i];
  }

  lemma ConcatSnoc(ts: seq<string>, t: string)
    ensures Text.Concat(ts + [t]) == Text.Concat(ts) + t
  {
    assert (ts + [t])[..|ts|] == ts;
  }

  lemma FramesSnoc(ps: seq<Json.Object>, p: Json.Object)
    ensures Frames(ps + [p]) == Frames(ps) + [Frame(p)]
  {
    assert (ps + [p])[..|ps|] == ps;
  }

  lemma ChunkPayloadsSnoc(ts: seq<string>, t: string)
    ensures ChunkPayloads(ts + [t]) == ChunkPayloads(ts) + [ChunkPayload(t)]
  {
  }

  /** `generate()`: the loop that accumulates `full_response` while it yields records. */
  method Generate(reply: Reply) returns (out: seq<string>)
    ensures out == Frames(Emitted(reply))
  {
    var chunks := reply.chunks;
    var full := "";
    out := [];
    var i := 0;
    while i < |chunks|
      invariant 0 <= i <= |chunks|
      invariant full == Text.Concat(NonEmpty(chunks[..i]))
      invariant out == Frames(ChunkPayloads(NonEmpty(chunks[..i])))
    {
      NonEmptyStep(chunks, i);
      if chunks[i] != "" {
        ConcatSnoc(NonEmpty(chunks[..i]), chunks[i]);
        ChunkPayloadsSnoc(NonEmpty(chunks[..i]), chunks[i]);
        FramesSnoc(ChunkPayloads(NonEmpty(chunks[..i])), ChunkPayload(chunks[i]));
        full := full + chunks[i];
        out := out + [Frame(ChunkPayload(chunks[i]))];
      } else {
        assert NonEmpty(chunks[..i]) + [] == NonEmpty(chunks[..i]);
      }
      i := i + 1;
    }
    assert chunks[..i] == chunks;
    var last := match reply
      case Yields(_) => DonePayload(full)
      case FailsAfter(_, e) => ErrorPayload(e);
    FramesSnoc(ChunkPayloads(NonEmpty(chunks)), last);
    out := out + [Frame(last)];
  }

  /** One record per non-empty chunk text, in order, and exactly one closing record. */
  lemma EmittedShape(reply: Reply)
    ensures |Emitted(reply)| == |NonEmpty(reply.chunks)| + 1
    ensures forall k :: 0 <= k < |NonEmpty(reply.chunks)| ==> Emitted(reply)[k] == ChunkPayload(NonEmpty(reply.chunks)[k])
  {
  }

  /**
   * On success the closing record is `{chunk: '', done: true, full_response}`
   * and `full_response` is the text of all chunk records sent before it,
   * which is all the text the reply yielded.
   */
  lemma SuccessEndsWithFullResponse(chunks: seq<string>)
    ensures var ps := Emitted(Yields(chunks));
      ps[|ps| - 1] == DonePayload(Text.Concat(NonEmpty(chunks)))
      && Text.Concat(NonEmpty(chunks)) == Text.Concat(chunks)
  {
    NonEmptyConcat(chunks);
  }

  /** On failure exactly one error record is sent, and it is the last. */
  lemma FailureEndsWithOneError(chunks: seq<string>, e: string)
    ensures var ps := Emitted(FailsAfter(chunks, e));
      ps[|ps| - 1] == ErrorPayload(e)
      && forall k :: 0 <= k < |ps| - 1 ==> Json.Get(ps[k], "error").None?
  {
    var ps := Emitted(FailsAfter(chunks, e));
    forall k | 0 <= k < |ps| - 1 ensures Json.Get(ps[k], "error").None? {
      assert ps[k] == ChunkPayload(NonEmpty(chunks)[k]);
    }
  }

  /** A frame is one line of JSON, a blank line, and the client can read its payload back. */
  lemma FrameIsDataLine(p: Json.Object)
    ensures Frame(p) == ("data: " + Json.Encode(p)) + "\n" + "" + "\n"
    ensures '\n' !in "data: " + Json.Encode(p)
    ensures Json.Decode(("data: " + Json.Encode(p))[6..]) == Some(p)
  {
    Json.EncodeNoNewline(p);
    Json.DecodeEncode(p);
    assert ("data: " + Json.Encode(p))[6..] == Json.Encode(p);
  }

  // ---------------------------------------------------------------- endpoints

  /** A chat object of the model library; `serial` counts the `start_chat` calls. */
  datatype Session = Session(serial: nat, primed: bool)

  /** How `model.start_chat()` ends (an exception message, or a chat) and whether the priming message is accepted. */
  datatype Backend = Backend(startError: Option<string>, primeOk: bool)

  /**
   * The backend app.py actually has: `model` is imported from
   * APIs/gemini_api.py, where it is the model name string, so calling
   * `start_chat` on it raises.
   */
  const AsWritten: Backend := Backend(Some("'str' object has no attribute 'start_chat'"), false)

  datatype Response = Reply(status: nat, body: Json.Object) | EventStream(frames: seq<string>)

  const MessageRequired: string := "Message is required"

  /** What `str(e)` says when the request has no JSON body and `data` is `None`. */
  const NoBody: string := "'NoneType' object has no attribute 'get'"

  /** The JSON error answer; the traceback text under `details` is not modelled. */
  function ErrorReply(e: string): Response {
    Reply(500, [("error", Json.Str(e))])
  }

  /** `data.get('session_id', 'default')`. */
  function SessionKey(data: Json.Object): (k: Json.Value)
    ensures Json.Get(data, "session_id").None? ==> k == Json.Str("default")
    ensures Json.Get(data, "session_id").Some? ==> k == Json.Get(data, "session_id").value
  {
    match Json.Get(data, "session_id")
    case None => Json.Str("default")
    case Some(v) => v
  }

  /**
   * The checks both endpoints make before touching the table: a body must be
   * there and its `message` must be truthy; the result is the session key.
   */
  function Validate(body: Option<Json.Object>): (r: Result<Json.Value, Response>)
    ensures r.Ok? <==> body.Some? && Json.Truthy(Json.Get(body.value, "message"))
    ensures r.Ok? ==> r.value == SessionKey(body.value)
    ensures body.None? ==> r == Err(ErrorReply(NoBody))
    ensures body.Some? && !Json.Truthy(Json.Get(body.value, "message")) ==>
      r == Err(Reply(400, [("error", Json.Str(MessageRequired))]))
  {
    if body.None? then Err(ErrorReply(NoBody))
    else if !Json.Truthy(Json.Get(body.value, "message")) then Err(Reply(400, [("error", Json.Str(MessageRequired))]))
    else Ok(SessionKey(body.value))
  }

  class ChatServer {
    /** `chat_sessions`. */
    var sessions: map<Json.Value, Session>
    var started: nat

    constructor ()
      ensures sessions == map[] && started == 0
    {
      sessions, started := map[], 0;
    }

    /**
     * Get-or-create: a known key keeps its chat; a new key gets exactly one
     * new entry, unless `start_chat` raises, which leaves the table as it was.
     */
    method GetOrCreate(key: Json.Value, backend: Backend) returns (r: Result<Session, string>)
      modifies this
      ensures key in old(sessions) ==> sessions == old(sessions) && started == old(started) && r == Ok(old(sessions)[key])
      ensures key !in old(sessions) && backend.startError.Some? ==>
        sessions == old(sessions) && started == old(started) && r == Err(backend.startError.value)
      ensures key !in old(sessions) && backend.startError.None? ==>
        var s := Session(old(started), backend.primeOk);
        sessions == old(sessions)[key := s] && started == old(started) + 1 && r == Ok(s)
    {
      if key in sessions {
        return Ok(sessions[key]);
      }
      if backend.startError.Some? {
        return Err(backend.startError.value);
      }
      var s := Session(started, backend.primeOk);
      sessions := sessions[key := s];
      started := started + 1;
      r := Ok(s);
    }

    /** `POST /api/chat/stream`. The `personality` field of the body is not read. */
    method ChatStream(body: Option<Json.Object>, backend: Backend, reply: Reply) returns (resp: Response)
      modifies this
      ensures Validate(body).Err? ==> resp == Validate(body).error && sessions == old(sessions) && started == old(started)
      ensures Validate(body).Ok? ==>
        var key := Validate(body).value;
        (key in old(sessions) ==>
              sessions == old(sessions) && started == old(started) && resp == EventStream(Frames(Emitted(reply))))
        && (key !in old(sessions) && backend.startError.Some? ==>
              sessions == old(sessions) && started == old(started) && resp == ErrorReply(backend.startError.value))
        && (key !in old(sessions) && backend.startError.None? ==>
              sessions == old(sessions)[key := Session(old(started), backend.primeOk)] && started == old(started) + 1
              && resp == EventStream(Frames(Emitted(reply))))
    {
      var v := Validate(body);
      if v.Err? {
        return v.error;
      }
      var chat := GetOrCreate(v.value, backend);
      if chat.Err? {
        return ErrorReply(chat.error);
      }
      var frames := Generate(reply);
      resp := EventStream(frames);
    }

    /** `POST /api/chat`: the whole answer at once, or the exception `send_message` raised. */
    method Chat(body: Option<Json.Object>, backend: Backend, answer: Result<string, string>) returns (resp: Response)
      modifies this
      ensures Validate(body).Err? ==> resp == Validate(body).error && sessions == old(sessions) && started == old(started)
      ensures Validate(body).Ok? ==>
        var key := Validate(body).value;
        (key in old(sessions) ==> sessions == old(sessions) && started == old(started))
        && (key !in old(sessions) && backend.startError.Some? ==>
              sessions == old(sessions) && started == old(started) && resp == ErrorReply(backend.startError.value))
        && (key !in old(sessions) && backend.startError.None? ==>
              sessions == old(sessions)[key := Session(old(started), backend.primeOk)] && started == old(started) + 1)
        && (key in old(sessions) || backend.startError.None? ==>
              resp == match answer
                case Ok(text) => Reply(200, [("response", Json.Str(text)), ("session_id", key)])
                case Err(e) => ErrorReply(e))
    {
      var v := Validate(body);
      if v.Err? {
        return v.error;
      }
      var chat := GetOrCreate(v.value, backend);
      if chat.Err? {
        return ErrorReply(chat.error);
      }
      resp := match answer
        case Ok(text) => Reply(200, [("response", Json.Str(text)), ("session_id", v.value)])
        case Err(e) => ErrorReply(e);
    }
  }

  /** A request without a truthy `message` is refused with 400 whatever else it holds. */
  lemma EmptyMessageRefused(data: Json.Object)
    requires Json.Get(data, "message").None? || Json.Get(data, "message") == Some(Json.Str(""))
    ensures Validate(Some(data)) == Err(Reply(400, [("error", Json.Str(MessageRequired))]))
  {
  }

  /**
   * With the backend as written, a valid request for a session not yet in
   * the table is answered with 500 by both endpoints, and the table and the
   * count of started chats stay as they were.
   */
  method AsWrittenNewSessionFails(s: ChatServer, body: Option<Json.Object>, reply: Reply, answer: Result<string, string>)
    returns (streamed: Response, whole: Response)
    requires Validate(body).Ok? && Validate(body).value !in s.sessions
    modifies s
    ensures streamed == ErrorReply(AsWritten.startError.value) && streamed.status == 500
    ensures whole == ErrorReply(AsWritten.startError.value) && whole.status == 500
    ensures s.sessions == old(s.sessions) && s.started == old(s.started)
  {
    streamed := s.ChatStream(body, AsWritten, reply);
    whole := s.Chat(body, AsWritten, answer);
  }

  /** A request to one of the two chat endpoints, with what the model would answer to it. */
  datatype Request =
    | ToChat(body: Option<Json.Object>, answer: Result<string, string>)  // `/api/chat`
    | ToChatStream(body: Option<Json.Object>, reply: Reply)              // `/api/chat/stream`

  /**
   * With the backend as written, a freshly started server answers every
   * request to either endpoint with an error status, and never with a reply
   * text or an event stream: nothing is ever stored, so every valid request
   * is for a new session.
   */
  method AsWrittenServesNothing(requests: seq<Request>) returns (resps: seq<Response>)
    ensures |resps| == |requests|
    ensures forall k :: 0 <= k < |resps| ==> resps[k].Reply? && resps[k].status in {400, 500}
  {
    var s := new ChatServer();
    resps := [];
    var i := 0;
    while i < |requests|
      invariant 0 <= i <= |requests| && |resps| == i && s.sessions == map[]
      invariant forall k :: 0 <= k < i ==> resps[k].Reply? && resps[k].status in {400, 500}
    {
      var resp;
      match requests[i] {
        case ToChat(body, answer) =>
          resp := s.Chat(body, AsWritten, answer);
        case ToChatStream(body, reply) =>
          resp := s.ChatStream(body, AsWritten, reply);
      }
      resps := resps + [resp];
      i := i + 1;
    }
  }
}
