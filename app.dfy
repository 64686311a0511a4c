/**
 * The chat screen of frontend/src/App.jsx: the message list, the input box,
 * the loading flag, the selected personality and the session id, with the
 * handlers that change them. `sendMessage` is split into the steps the
 * source takes: the guarded start of a turn, one read of the response body
 * (line buffer and record loop), the transport-failure catch and the
 * `finally`.
 */
module App {
  import opened Wrappers
  import Text
  import Json
  import Lines
  import Login
  import Personalities
  import opened Reconciler

  /** The greeting used when a personality has none. */
  const DefaultGreeting: string := "Sup trouble \U{1F92D} what're we on rn?"

  const ConnectionError: string := "Connection error. Make sure the backend is running."

  /** An entry of the personality list the screen holds; an empty greeting stands for a missing one. */
  datatype PersonalityOption = PersonalityOption(key: string, labelText: string, greeting: string)

  /** The list set when fetching the personalities fails. */
  const FallbackPersonalities: seq<PersonalityOption> := [PersonalityOption("default", "Gen-Z Chaotic", "")]

  /** `list.find(p => p.key === key)`, as the index of the first entry with that key. */
  function FindPersonality(key: string, list: seq<PersonalityOption>): (r: Option<nat>)
    ensures r.Some? ==> r.value < |list| && list[r.value].key == key
    ensures r.Some? ==> forall j :: 0 <= j < r.value ==> list[j].key != key
    ensures r.None? <==> forall j :: 0 <= j < |list| ==> list[j].key != key
  {
    if list == [] then None
    else if list[0].key == key then Some(0)
    else match FindPersonality(key, list[1..])
      case None => None
      case Some(i) => Some(i + 1)
  }

  /**
   * `getInitialGreeting(key, list)`: the greeting of the first entry with
   * that key when it has one, the default greeting otherwise; never empty.
   */
  function GreetingFor(key: string, list: seq<PersonalityOption>): (g: string)
    ensures g != ""
    ensures FindPersonality(key, list).None? ==> g == DefaultGreeting
    ensures FindPersonality(key, list).Some? && list[FindPersonality(key, list).value].greeting != "" ==>
      g == list[FindPersonality(key, list).value].greeting
    ensures FindPersonality(key, list).Some? && list[FindPersonality(key, list).value].greeting == "" ==>
      g == DefaultGreeting
  {
    match FindPersonality(key, list)
    case None => DefaultGreeting
    case Some(i) => if list[i].greeting != "" then list[i].greeting else DefaultGreeting
  }

  function Greeting(key: string, list: seq<PersonalityOption>): Message {
    Message(Bot, GreetingFor(key, list), false)
  }

  /** `` `session_${n}` ``: the session id sent to the server. */
  function SessionName(n: nat): string {
    "session_" + Text.NatToString(n)
  }

  /**
   * Different session numbers name different sessions, so the session a
   * personality change starts is a key the server has not seen under the
   * old number.
   */
  lemma SessionNameInjective(a: nat, b: nat)
    ensures SessionName(a) == SessionName(b) ==> a == b
  {
    var p := "session_";
    if SessionName(a) == SessionName(b) {
      assert SessionName(a)[|p|..] == Text.NatToString(a);
      assert SessionName(b)[|p|..] == Text.NatToString(b);
      Text.NatToStringInjective(a, b);
    }
  }

  /** The body the client posts for a turn. */
  function RequestBody(text: string, session: nat, personality: string): Json.Object {
    [("message", Json.Str(text)), ("session_id", Json.Str(SessionName(session))), ("personality", Json.Str(personality))]
  }

  /** The state updater that starts a turn: skipped when the last message is the same user text. */
  function Appended(msgs: seq<Message>, text: string): seq<Message> {
    if |msgs| > 0 && msgs[|msgs| - 1].role == User && msgs[|msgs| - 1].content == text then msgs
    else msgs + [Message(User, text, false), Message(Bot, "", true)]
  }

  /** How the request ends: `fetch` rejects or answers with an error status, or a body is read. */
  datatype Transport =
    | Refused
    | Stream(pieces: seq<string>, broken: bool)  // the decoded reads; `broken`: a later read rejects

  /** The message list at the end of a turn with the trimmed text `text`. */
  function TurnMessages(msgs: seq<Message>, text: string, transport: Transport): seq<Message> {
    var start := Appended(msgs, text);
    var failed := Message(Bot, ConnectionError, false);
    match transport
    case Refused => Rewrite(start, failed)
    case Stream(pieces, broken) =>
      var f := ProcessReads(Fold(start, ""), "", pieces);
      if broken then Rewrite(f.messages, failed) else f.messages
  }

  class ChatApp {
    var user: Option<Login.User>
    var messages: seq<Message>
    var input: string
    var isLoading: bool
    var personalities: seq<PersonalityOption>
    var selectedPersonality: string
    /** `sessionId.current`, as the number after `session_`. */
    var sessionId: nat
    /** The locals `buffer` and `accumulatedContent` of a turn. */
    var buffer: string
    var accumulated: string
    /** All text read in this turn, and the lines taken out of the buffer so far. */
    ghost var received: string
    ghost var taken: seq<string>

    /** The line buffer's invariant: the lines taken out, each with its newline, then the buffer, are what was read. */
    ghost predicate Valid()
      reads this`buffer, this`taken, this`received
    {
      '\n' !in buffer && Lines.NoNewlines(taken) && Lines.Flatten(taken) + buffer == received
    }

    constructor (saved: Option<Login.User>, clock: nat)
      ensures user == saved && messages == [] && input == "" && !isLoading
      ensures personalities == [] && selectedPersonality == "default" && sessionId == clock
      ensures Valid()
    {
      user := saved;
      messages := [];
      input := "";
      isLoading := false;
      personalities := [];
      selectedPersonality := "default";
      sessionId := clock;
      buffer := "";
      accumulated := "";
      received := "";
      taken := [];
    }

    /**
     * The start of `sendMessage`: nothing happens for blank input or while a
     * turn is running; otherwise the input is cleared, the loading flag set,
     * the two messages appended (unless the same user text is already last)
     * and the request body built.
     */
    method BeginTurn() returns (request: Option<Json.Object>)
      modifies this`input, this`isLoading, this`messages, this`buffer, this`accumulated, this`received, this`taken
      ensures request.None? <==> Text.Trim(old(input)) == "" || old(isLoading)
      ensures request.None? ==>
        messages == old(messages) && input == old(input) && isLoading == old(isLoading)
        && buffer == old(buffer) && accumulated == old(accumulated)
        && received == old(received) && taken == old(taken)
      ensures request.Some? ==>
        var text := Text.Trim(old(input));
        request == Some(RequestBody(text, old(sessionId), old(selectedPersonality)))
        && messages == Appended(old(messages), text) && input == "" && isLoading
        && buffer == "" && accumulated == "" && received == "" && taken == [] && Valid()
      ensures user == old(user) && personalities == old(personalities)
      ensures selectedPersonality == old(selectedPersonality) && sessionId == old(sessionId)
    {
      var text := Text.Trim(input);
      if text == "" || isLoading {
        return None;
      }
      input := "";
      isLoading := true;
      messages := Appended(messages, text);
      request := Some(RequestBody(text, sessionId, selectedPersonality));
      buffer, accumulated := "", "";
      received, taken := "", [];
    }

    /** The three `if`s over a decoded record; `stop` is the `break` after an error record. */
    method HandleRecord(data: Json.Object) returns (stop: bool)
      modifies this`messages, this`accumulated
      ensures (Fold(messages, accumulated), stop) == ApplyRecord(Fold(old(messages), old(accumulated)), data)
    {
      var error := Json.Get(data, "error");
      if Json.Truthy(error) {
        messages := Rewrite(messages, Message(Bot, "Error: " + Json.ToText(error.value), false));
        return true;
      }
      var chunk := Json.Get(data, "chunk");
      var done := Json.Get(data, "done");
      if Json.Truthy(chunk) {
        accumulated := accumulated + Json.ToText(chunk.value);
        messages := Rewrite(messages, Message(Bot, accumulated, !Json.Truthy(done)));
      }
      if Json.Truthy(done) {
        var full := Json.Get(data, "full_response");
        var content := if Json.Truthy(full) then Json.ToText(full.value) else accumulated;
        messages := Rewrite(messages, Message(Bot, content, false));
      }
      stop := false;
    }

    /**
     * `buffer += text; lines = buffer.split('\n'); buffer = lines.pop()`:
     * the complete lines come out, the piece after the last newline stays.
     */
    method TakeLines(text: string) returns (lines: seq<string>)
      requires Valid()
      modifies this`buffer, this`received, this`taken
      ensures Valid()
      ensures received == old(received) + text
      ensures lines == Lines.CompleteLines(old(buffer) + text) && buffer == Lines.Rest(old(buffer) + text)
      ensures taken == old(taken) + lines
    {
      Lines.BufferStep(taken, buffer, received, text);
      buffer := buffer + text;
      received := received + text;
      var parts := Lines.Split(buffer);
      lines := parts[..|parts| - 1];
      buffer := parts[|parts| - 1];
      taken := taken + lines;
    }

    /** The `for` over the lines of one read, left by `break` after an error record. */
    method HandleLines(lines: seq<string>)
      modifies this`messages, this`accumulated
      ensures Fold(messages, accumulated) == ProcessLines(Fold(old(messages), old(accumulated)), lines).0
    {
      ghost var start := Fold(messages, accumulated);
      var i := 0;
      while i < |lines|
        invariant 0 <= i <= |lines|
        invariant ProcessLines(start, lines) == ProcessLines(Fold(messages, accumulated), lines[i..])
      {
        var line := lines[i];
        assert lines[i..][0] == line && lines[i..][1..] == lines[i + 1..];
        if Text.StartsWith(line, DataPrefix) {
          var data := Json.Decode(line[|DataPrefix|..]);
          if data.Some? {
            var stop := HandleRecord(data.value);
            if stop {
              break;
            }
          }
        }
        i := i + 1;
      }
    }

    /**
     * One iteration of the read loop: the text joins the buffer, the
     * complete lines are taken out and handled in order until an error
     * record, and the piece after the last newline stays in the buffer,
     * which is therefore always the text after the last newline read.
     */
    method ConsumeRead(text: string)
      requires Valid()
      modifies this`buffer, this`messages, this`accumulated, this`received, this`taken
      ensures Valid()
      ensures received == old(received) + text
      ensures buffer == Lines.Rest(received) && taken == Lines.CompleteLines(received)
      ensures buffer == Lines.Rest(old(buffer) + text)
      ensures taken == old(taken) + Lines.CompleteLines(old(buffer) + text)
      ensures Fold(messages, accumulated) ==
        ProcessLines(Fold(old(messages), old(accumulated)), Lines.CompleteLines(old(buffer) + text)).0
    {
      var lines := TakeLines(text);
      HandleLines(lines);
      Lines.LinesUnique(taken, buffer, received);
    }

    /** The `while (true)` over the reads of the body, until the reader reports `done`. */
    method ReadAll(pieces: seq<string>)
      requires Valid()
      modifies this`buffer, this`messages, this`accumulated, this`received, this`taken
      ensures Valid() && received == old(received) + Text.Concat(pieces)
      ensures Fold(messages, accumulated) == ProcessReads(Fold(old(messages), old(accumulated)), old(buffer), pieces)
    {
      ghost var start := Fold(messages, accumulated);
      ghost var rest := buffer;
      ghost var before := received;
      var k := 0;
      while k < |pieces|
        invariant 0 <= k <= |pieces| && Valid()
        invariant received == before + Text.Concat(pieces[..k])
        invariant ProcessReads(start, rest, pieces) == ProcessReads(Fold(messages, accumulated), buffer, pieces[k..])
      {
        assert pieces[k..][0] == pieces[k] && pieces[k..][1..] == pieces[k + 1..];
        assert pieces[..k + 1][..k] == pieces[..k];
        ConsumeRead(pieces[k]);
        k := k + 1;
      }
      assert pieces[..k] == pieces;
    }

    /** The `catch` of a failed request or read: the streaming message gets the connection error. */
    method FailTransport()
      modifies this`messages
      ensures messages == Rewrite(old(messages), Message(Bot, ConnectionError, false))
    {
      messages := Rewrite(messages, Message(Bot, ConnectionError, false));
    }

    /** The `finally`: the loading flag is cleared. */
    method EndTurn()
      modifies this`isLoading
      ensures !isLoading
    {
      isLoading := false;
    }

    /**
     * `sendMessage`: a refused submit changes nothing; otherwise the turn
     * runs to its end, the list is the one `TurnMessages` describes and the
     * loading flag is clear, whatever the transport did.
     */
    method SendMessage(transport: Transport) returns (request: Option<Json.Object>)
      modifies this`input, this`isLoading, this`messages, this`buffer, this`accumulated, this`received, this`taken
      ensures request.None? <==> Text.Trim(old(input)) == "" || old(isLoading)
      ensures request.None? ==>
        messages == old(messages) && input == old(input) && isLoading == old(isLoading)
        && buffer == old(buffer) && accumulated == old(accumulated)
        && received == old(received) && taken == old(taken)
      ensures request.Some? ==>
        var text := Text.Trim(old(input));
        request == Some(RequestBody(text, old(sessionId), old(selectedPersonality)))
        && messages == TurnMessages(old(messages), text, transport) && input == "" && !isLoading
        && Valid() && received == (if transport.Stream? then Text.Concat(transport.pieces) else "")
      ensures user == old(user) && personalities == old(personalities)
      ensures selectedPersonality == old(selectedPersonality) && sessionId == old(sessionId)
    {
      ghost var text, before := Text.Trim(input), messages;
      request := BeginTurn();
      if request.Some? {
        RunTurn(transport, before, text);
        EndTurn();
      }
    }

    /**
     * The `try` and `catch` of a started turn: the body is read to its end,
     * and a refused request or a failed read puts the connection error into
     * the streaming message.
     */
    method RunTurn(transport: Transport, ghost before: seq<Message>, ghost text: string)
      requires Valid() && messages == Appended(before, text)
      requires buffer == "" && accumulated == "" && received == ""
      modifies this`buffer, this`messages, this`accumulated, this`received, this`taken
      ensures messages == TurnMessages(before, text, transport)
      ensures Valid() && received == (if transport.Stream? then Text.Concat(transport.pieces) else "")
    {
      match transport {
        case Refused =>
          FailTransport();
        case Stream(pieces, broken) =>
          ReadAll(pieces);
          assert received == Text.Concat(pieces) by { assert "" + Text.Concat(pieces) == Text.Concat(pieces); }
          if broken {
            FailTransport();
          }
      }
    }

    /**
     * `handlePersonalityChange`: the current key changes nothing; another key
     * is selected, starts a new session and leaves only its greeting.
     */
    method ChangePersonality(key: string)
      modifies this`selectedPersonality, this`sessionId, this`messages
      ensures key == old(selectedPersonality) ==>
        messages == old(messages) && sessionId == old(sessionId) && selectedPersonality == old(selectedPersonality)
      ensures key != old(selectedPersonality) ==>
        selectedPersonality == key && sessionId == old(sessionId) + 1
        && messages == [Greeting(key, personalities)]
      ensures user == old(user) && personalities == old(personalities)
      ensures input == old(input) && isLoading == old(isLoading)
    {
      if key == selectedPersonality {
        return;
      }
      selectedPersonality := key;
      sessionId := sessionId + 1;
      messages := [Greeting(key, personalities)];
    }

    /** `onModeSelect`: the same reset as a change of personality, even for the current key. */
    method SelectMode(key: string)
      modifies this`selectedPersonality, this`sessionId, this`messages
      ensures selectedPersonality == key && sessionId == old(sessionId) + 1
      ensures messages == [Greeting(key, personalities)]
      ensures user == old(user) && personalities == old(personalities)
      ensures input == old(input) && isLoading == old(isLoading)
    {
      selectedPersonality := key;
      sessionId := sessionId + 1;
      messages := [Greeting(key, personalities)];
    }

    /** `handleLogout`: no user and no messages. */
    method Logout()
      modifies this`user, this`messages
      ensures user.None? && messages == []
    {
      user := None;
      messages := [];
    }

    /**
     * What the personality fetch does with its outcome: a failure installs
     * the fallback list; a non-empty list keeps the selected key if it is
     * listed (the first key otherwise) and shows the greeting of that entry.
     */
    method LoadPersonalities(fetched: Option<seq<PersonalityOption>>)
      modifies this`personalities, this`selectedPersonality, this`messages
      ensures fetched.None? ==>
        personalities == FallbackPersonalities
        && selectedPersonality == old(selectedPersonality) && messages == old(messages)
      ensures fetched.Some? ==> personalities == fetched.value
      ensures fetched.Some? && fetched.value == [] ==>
        selectedPersonality == old(selectedPersonality) && messages == old(messages)
      ensures fetched.Some? && fetched.value != [] ==>
        var list := fetched.value;
        var i := FindPersonality(old(selectedPersonality), list);
        (i.Some? ==> selectedPersonality == old(selectedPersonality))
        && (i.None? ==> selectedPersonality == list[0].key)
        && messages == [Message(Bot, if list[if i.Some? then i.value else 0].greeting != ""
                                     then list[if i.Some? then i.value else 0].greeting
                                     else DefaultGreeting, false)]
    {
      if fetched.None? {
        personalities := FallbackPersonalities;
        return;
      }
      var list := fetched.value;
      personalities := list;
      if |list| > 0 {
        var found := FindPersonality(selectedPersonality, list);
        var current := if found.Some? then list[found.value] else list[0];
        if found.None? {
          selectedPersonality := list[0].key;
        }
        messages := [Message(Bot, if current.greeting != "" then current.greeting else DefaultGreeting, false)];
      }
    }
  }

  // ---------------------------------------------------------------- properties

  /**
   * Starting a turn appends the user text and a new empty bot message,
   * unless the same user text is already last. On a list with no streaming
   * message the new one is the message the records update; on a list that
   * still holds one, left behind by an earlier turn, `findIndex` keeps
   * returning that older one.
   */
  lemma AppendedStreaming(msgs: seq<Message>, text: string)
    ensures var dup := |msgs| > 0 && msgs[|msgs| - 1].role == User && msgs[|msgs| - 1].content == text;
      (dup ==> Appended(msgs, text) == msgs)
      && (!dup ==> Appended(msgs, text) == msgs + [Message(User, text, false), Message(Bot, "", true)]
                   && FirstStreaming(Appended(msgs, text))
                      == if FirstStreaming(msgs).None? then Some(|msgs| + 1) else FirstStreaming(msgs))
  {
    var dup := |msgs| > 0 && msgs[|msgs| - 1].role == User && msgs[|msgs| - 1].content == text;
    if !dup {
      var a := Appended(msgs, text);
      assert forall j :: 0 <= j < |msgs| ==> a[j] == msgs[j];
      match FirstStreaming(msgs)
      case None => FirstStreamingAt(a, |msgs| + 1);
      case Some(i) => FirstStreamingAt(a, i);
    }
  }

  /** The fallback greeting is the default personality's greeting in the server's table. */
  lemma FallbackGreetingIsServerDefault()
    ensures DefaultGreeting == Personalities.Greetings[Personalities.DefaultKey]
  {
  }

  /** With the fallback list every key greets with the default greeting. */
  lemma FallbackListGreets(key: string)
    ensures GreetingFor(key, FallbackPersonalities) == DefaultGreeting
  {
  }
}
