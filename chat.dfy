/**
 * The chat client's `send`: it posts the question, appends the user's
 * message and an empty assistant message, then reads the streamed reply,
 * cuts it into frames at blank lines ("\n\n"), keeps the frames that start
 * with `data:`, and folds the events they carry into the assistant
 * message: `context` replaces its citations, `chunk` appends to its text.
 */
module Chat {
  import opened Js

  datatype Role = User | Assistant

  /** A citation as the backend sends it; every field may be absent. */
  datatype Citation = Citation(docId: Option<int>, filePath: Option<string>, similarity: Option<real>)

  /**
   * A conversation message. The id is the `Date.now()` number the source
   * turns into a string; decimal strings of integers are equal exactly when
   * the integers are, so ids compare as numbers here.
   */
  datatype Message = Message(role: Role, content: string, citations: Option<seq<Citation>>, id: int)

  /** What `JSON.parse` of one payload and the test of its `event` field give. */
  datatype Event =
    | Context(citations: Option<seq<Citation>>)
    | Chunk(text: string)
    | Other      // parsed, but an event this client does not handle
    | ParseFail  // `JSON.parse` (or reading `.event` of its result) threw

  /** A thrown value: an `AbortError`, or any other error with its `message` ("" when it has none). */
  datatype Failure = Abort | Error(message: string)

  datatype StreamEnd = Done | Broken(failure: Failure)

  /**
   * What the request gives: it fails before a response, the response has no
   * body, or the body yields the decoded `pieces` and then ends or throws.
   */
  datatype Reply = Rejected(failure: Failure) | NoBody | Body(pieces: seq<string>, end: StreamEnd)

  const Delimiter := "\n\n"
  const DataPrefix := "data:"
  const NoBodyMessage := "No response body"
  const DefaultError := "Chat failed"

  /** Everything the body has yielded: the pieces in order. */
  function Concat(pieces: seq<string>): string {
    if pieces == [] then "" else Concat(pieces[..|pieces| - 1]) + pieces[|pieces| - 1]
  }

  /** The complete frames of the text read so far: every part that a "\n\n" closes. */
  function Frames(s: string): seq<string> {
    var parts := Split(s, Delimiter);
    parts[..|parts| - 1]
  }

  /** The open frame kept in `buffer`: the text after the last "\n\n". */
  function Pending(s: string): (rest: string)
    ensures !Contains(rest, Delimiter)
  {
    SplitPartsFree(s, Delimiter);
    var parts := Split(s, Delimiter);
    parts[|parts| - 1]
  }

  /** Frames, each followed by the delimiter, concatenated. */
  function Terminated(frames: seq<string>): string {
    if frames == [] then "" else Terminated(frames[..|frames| - 1]) + frames[|frames| - 1] + Delimiter
  }

  lemma {:induction false} JoinAsTerminated(parts: seq<string>)
    requires |parts| >= 1
    ensures Join(parts, Delimiter) == Terminated(parts[..|parts| - 1]) + parts[|parts| - 1]
    decreases |parts|
  {
    if |parts| > 1 {
      var tail := parts[1..];
      JoinAsTerminated(tail);
      TerminatedCons(parts[0], tail[..|tail| - 1]);
      assert parts[..|parts| - 1] == [parts[0]] + tail[..|tail| - 1];
    }
  }

  lemma {:induction false} TerminatedCons(f: string, frames: seq<string>)
    ensures Terminated([f] + frames) == f + Delimiter + Terminated(frames)
    decreases |frames|
  {
    if frames != [] {
      var init := frames[..|frames| - 1];
      TerminatedCons(f, init);
      assert ([f] + frames)[..|frames|] == [f] + init;
    } else {
      assert ([f] + frames)[..0] == [];
    }
  }

  /**
   * The frames, each followed by "\n\n", and then the open frame give back
   * exactly the text read: nothing is lost or invented by the framing.
   */
  lemma FramesRoundTrip(s: string)
    ensures Terminated(Frames(s)) + Pending(s) == s
  {
    SplitJoin(s, Delimiter);
    JoinAsTerminated(Split(s, Delimiter));
  }

  /**
   * Reading `t` after `a`: the frames of `a + t` are those of `a`, then those
   * of `a`'s open frame followed by `t`, and the open frame is the new one.
   * This is what makes the frames independent of how the text was cut into pieces.
   */
  lemma FramesAppend(a: string, t: string)
    ensures Frames(a + t) == Frames(a) + Frames(Pending(a) + t)
    ensures Pending(a + t) == Pending(Pending(a) + t)
  {
    SplitAppend(a, t, Delimiter);
    InitLastAppend(Split(a, Delimiter), Split(Pending(a) + t, Delimiter), Split(a + t, Delimiter));
  }

  /** `part.replace(/^data:\s*\/, "")` on a part that starts with `data:`. */
  function Payload(frame: string): (payload: string)
    requires StartsWith(frame, DataPrefix)
    ensures |DataPrefix| + |payload| <= |frame| && payload == frame[|frame| - |payload|..]
    ensures forall i :: |DataPrefix| <= i < |frame| - |payload| ==> IsSpace(frame[i])
    ensures payload == [] || !IsSpace(payload[0])
  {
    TrimStart(frame[|DataPrefix|..])
  }

  /** The events of the frames in order: one per frame that starts with `data:`. */
  function EventsOf(frames: seq<string>, parse: string -> Event): (evs: seq<Event>)
    ensures |evs| <= |frames|
  {
    if frames == [] then []
    else
      var f := frames[|frames| - 1];
      EventsOf(frames[..|frames| - 1], parse) + (if StartsWith(f, DataPrefix) then [parse(Payload(f))] else [])
  }

  /** A frame that carries an event. */
  predicate IsData(frame: string) {
    StartsWith(frame, DataPrefix)
  }

  /** There are exactly as many events as frames that start with `data:`. */
  lemma {:induction false} EventsOfCount(frames: seq<string>, parse: string -> Event)
    ensures |EventsOf(frames, parse)| == |Indices(frames, IsData)|
    decreases |frames|
  {
    if frames != [] {
      var n := |frames| - 1;
      EventsOfCount(frames[..n], parse);
      IndicesSnoc(frames, IsData);
      assert n !in Indices(frames[..n], IsData);
    }
  }

  /**
   * The event of the data frame at index `i` is the parse of its payload,
   * and it comes after exactly the events of the data frames before it.
   */
  lemma {:induction false} EventsOfAt(frames: seq<string>, parse: string -> Event, i: nat)
    requires i < |frames| && IsData(frames[i])
    ensures |Indices(frames[..i], IsData)| < |EventsOf(frames, parse)|
    ensures EventsOf(frames, parse)[|Indices(frames[..i], IsData)|] == parse(Payload(frames[i]))
    decreases |frames|
  {
    var n := |frames| - 1;
    var init := frames[..n];
    if i == n {
      EventsOfCount(init, parse);
    } else {
      assert init[..i] == frames[..i] && init[i] == frames[i];
      EventsOfAt(init, parse, i);
    }
  }

  function ChunkText(e: Event): string {
    if e.Chunk? then e.text else ""
  }

  /** The texts of all `chunk` events, concatenated in order. */
  function Text(evs: seq<Event>): string {
    if evs == [] then "" else Text(evs[..|evs| - 1]) + ChunkText(evs[|evs| - 1])
  }

  predicate HasChunk(evs: seq<Event>) {
    exists i :: 0 <= i < |evs| && evs[i].Chunk?
  }

  /** The citations of the last `context` event (`[]` when it has none), or `None` when there was none. */
  function LastCitations(evs: seq<Event>): Option<seq<Citation>> {
    if evs == [] then None
    else match evs[|evs| - 1]
      case Context(c) => Some(c.GetOr([]))
      case _ => LastCitations(evs[..|evs| - 1])
  }

  /** `prev.map(m => m.id === id ? { ...m, content } : m)`. */
  function WithContent(ms: seq<Message>, id: int, content: string): seq<Message> {
    seq(|ms|, i requires 0 <= i < |ms| => if ms[i].id == id then ms[i].(content := content) else ms[i])
  }

  /** `prev.map(m => m.id === id ? { ...m, citations } : m)`. */
  function WithCitations(ms: seq<Message>, id: int, citations: seq<Citation>): seq<Message> {
    seq(|ms|, i requires 0 <= i < |ms| => if ms[i].id == id then ms[i].(citations := Some(citations)) else ms[i])
  }

  /**
   * A message after the events `evs` were folded into the conversation:
   * a message with id `botId` takes the chunk text (once there was a chunk)
   * and the latest citations (once there was a context); others stay as they are.
   */
  function Stamp(m: Message, botId: int, evs: seq<Event>): Message {
    if m.id != botId then m
    else m.(content := if HasChunk(evs) then Text(evs) else m.content,
            citations := if LastCitations(evs).Some? then LastCitations(evs) else m.citations)
  }

  function StampAll(ms: seq<Message>, botId: int, evs: seq<Event>): (r: seq<Message>)
    ensures |r| == |ms|
    ensures forall i :: 0 <= i < |ms| && ms[i].id != botId ==> r[i] == ms[i]
    ensures forall i :: 0 <= i < |ms| ==> r[i].id == ms[i].id && r[i].role == ms[i].role
  {
    seq(|ms|, i requires 0 <= i < |ms| => Stamp(ms[i], botId, evs))
  }

  lemma {:induction false} NoChunkNoText(evs: seq<Event>)
    requires !HasChunk(evs)
    ensures Text(evs) == ""
    decreases |evs|
  {
    if evs != [] {
      var init := evs[..|evs| - 1];
      assert !HasChunk(init) by {
        forall i | 0 <= i < |init| ensures !init[i].Chunk? {
          assert init[i] == evs[i];
        }
      }
      NoChunkNoText(init);
    }
  }

  /** What the assistant message shows after the events `evs`. */
  function Answer(botId: int, evs: seq<Event>): Message {
    Message(Assistant, Text(evs), LastCitations(evs), botId)
  }

  /**
   * The placeholder appended by `send`, after the events: its content is the
   * in-order concatenation of every chunk text, its citations those of the
   * last context event.
   */
  lemma StampPlaceholder(botId: int, evs: seq<Event>)
    ensures Stamp(Message(Assistant, "", None, botId), botId, evs) == Answer(botId, evs)
  {
    if !HasChunk(evs) {
      NoChunkNoText(evs);
    }
  }

  lemma HasChunkSnoc(evs: seq<Event>, e: Event)
    ensures HasChunk(evs + [e]) <==> HasChunk(evs) || e.Chunk?
  {
    var evs' := evs + [e];
    if e.Chunk? {
      assert evs'[|evs|].Chunk?;
    }
    if HasChunk(evs) {
      var i :| 0 <= i < |evs| && evs[i].Chunk?;
      assert evs'[i] == evs[i];
    }
    if HasChunk(evs') && !e.Chunk? {
      var i :| 0 <= i < |evs'| && evs'[i].Chunk?;
      assert i < |evs| && evs[i] == evs'[i];
    }
  }

  /** Messages stamped by two event sequences agree when the sequences have the same text, chunks and citations. */
  lemma StampAllAgree(ms: seq<Message>, botId: int, evs: seq<Event>, evs': seq<Event>)
    requires Text(evs) == Text(evs') && HasChunk(evs) == HasChunk(evs') && LastCitations(evs) == LastCitations(evs')
    ensures StampAll(ms, botId, evs) == StampAll(ms, botId, evs')
  {
  }

  /** The events folded in one step, as the loop body applies them. */
  lemma StampStep(ms: seq<Message>, botId: int, evs: seq<Event>, e: Event)
    ensures e.Chunk? ==>
      StampAll(ms, botId, evs + [e]) == WithContent(StampAll(ms, botId, evs), botId, Text(evs) + e.text)
    ensures e.Context? ==>
      StampAll(ms, botId, evs + [e]) == WithCitations(StampAll(ms, botId, evs), botId, e.citations.GetOr([]))
    ensures !e.Chunk? && !e.Context? ==>
      StampAll(ms, botId, evs + [e]) == StampAll(ms, botId, evs)
  {
    var evs' := evs + [e];
    assert evs'[..|evs|] == evs;
    assert Text(evs') == Text(evs) + ChunkText(e);
    HasChunkSnoc(evs, e);
    var next, prev := StampAll(ms, botId, evs'), StampAll(ms, botId, evs);
    if e.Chunk? {
      assert LastCitations(evs') == LastCitations(evs);
      var want := WithContent(prev, botId, Text(evs) + e.text);
      forall i | 0 <= i < |ms| ensures next[i] == want[i] {
      }
      assert next == want;
    } else if e.Context? {
      var want := WithCitations(prev, botId, e.citations.GetOr([]));
      forall i | 0 <= i < |ms| ensures next[i] == want[i] {
      }
      assert next == want;
    } else {
      assert LastCitations(evs') == LastCitations(evs);
      StampAllAgree(ms, botId, evs, evs');
    }
  }

  /** An earlier message can only be stamped when it happens to carry the new bot id. */
  lemma StampAllFresh(old_: seq<Message>, user: Message, botId: int, evs: seq<Event>)
    requires user.id != botId
    requires forall i :: 0 <= i < |old_| ==> old_[i].id != botId
    ensures StampAll(old_ + [user, Message(Assistant, "", None, botId)], botId, evs)
         == old_ + [user, Answer(botId, evs)]
  {
    var ms := old_ + [user, Message(Assistant, "", None, botId)];
    StampPlaceholder(botId, evs);
    assert StampAll(ms, botId, evs)[|ms| - 1] == Stamp(ms[|ms| - 1], botId, evs);
  }

  lemma {:induction false} TextAppend(a: seq<Event>, b: seq<Event>)
    ensures Text(a + b) == Text(a) + Text(b)
    decreases |b|
  {
    if b != [] {
      var init := b[..|b| - 1];
      TextAppend(a, init);
      assert (a + b)[..|a + b| - 1] == a + init;
    } else {
      assert a + b == a;
    }
  }

  lemma {:induction false} LastCitationsAppend(a: seq<Event>, b: seq<Event>)
    ensures LastCitations(a + b) == if LastCitations(b).Some? then LastCitations(b) else LastCitations(a)
    decreases |b|
  {
    if b != [] {
      var init := b[..|b| - 1];
      LastCitationsAppend(a, init);
      assert (a + b)[..|a + b| - 1] == a + init;
      assert (a + b)[|a + b| - 1] == b[|b| - 1];
    } else {
      assert a + b == a;
    }
  }

  /**
   * Parse failures and events other than `context` and `chunk` change
   * nothing: dropping one from the stream leaves every message as it is.
   */
  lemma IgnoredEventChangesNothing(ms: seq<Message>, botId: int, evs: seq<Event>, i: nat)
    requires i < |evs| && (evs[i].Other? || evs[i].ParseFail?)
    ensures StampAll(ms, botId, evs[..i] + evs[i + 1..]) == StampAll(ms, botId, evs)
  {
    var a, e, b := evs[..i], evs[i], evs[i + 1..];
    assert evs == (a + [e]) + b;
    IgnoredEventText(a, e, b);
    IgnoredEventCitations(a, e, b);
    IgnoredEventChunks(a, e, b);
    StampAllAgree(ms, botId, a + b, evs);
  }

  lemma IgnoredEventText(a: seq<Event>, e: Event, b: seq<Event>)
    requires !e.Chunk?
    ensures Text(a + b) == Text((a + [e]) + b)
  {
    TextAppend(a + [e], b);
    TextAppend(a, b);
    assert (a + [e])[..|a|] == a;
  }

  lemma IgnoredEventCitations(a: seq<Event>, e: Event, b: seq<Event>)
    requires !e.Context?
    ensures LastCitations(a + b) == LastCitations((a + [e]) + b)
  {
    LastCitationsAppend(a + [e], b);
    LastCitationsAppend(a, b);
    assert (a + [e])[..|a|] == a;
  }

  lemma IgnoredEventChunks(a: seq<Event>, e: Event, b: seq<Event>)
    requires !e.Chunk?
    ensures HasChunk(a + b) == HasChunk((a + [e]) + b)
  {
    var evs := (a + [e]) + b;
    var i := |a|;
    if HasChunk(evs) {
      var j :| 0 <= j < |evs| && evs[j].Chunk?;
      if j < i { assert (a + b)[j] == evs[j]; } else { assert (a + b)[j - 1] == evs[j]; }
    }
    if HasChunk(a + b) {
      var j :| 0 <= j < |a + b| && (a + b)[j].Chunk?;
      if j < i { assert (a + b)[j] == evs[j]; } else { assert (a + b)[j] == evs[j + 1]; }
    }
  }

  /**
   * A `context` event replaces the citations outright: whatever came before,
   * they are its own (or `[]`) until the next `context` event.
   */
  lemma ContextReplaces(before: seq<Event>, c: Option<seq<Citation>>, after: seq<Event>)
    requires forall i :: 0 <= i < |after| ==> !after[i].Context?
    ensures LastCitations(before + [Context(c)] + after) == Some(c.GetOr([]))
  {
    NoContextNoCitations(after);
    LastCitationsAppend(before + [Context(c)], after);
  }

  lemma {:induction false} NoContextNoCitations(evs: seq<Event>)
    requires forall i :: 0 <= i < |evs| ==> !evs[i].Context?
    ensures LastCitations(evs) == None
    decreases |evs|
  {
    if evs != [] {
      NoContextNoCitations(evs[..|evs| - 1]);
    }
  }

  /** The events the stream loop folds in: those of the complete frames of everything read. */
  function StreamEvents(pieces: seq<string>, parse: string -> Event): seq<Event> {
    EventsOf(Frames(Concat(pieces)), parse)
  }

  /** The error `send` reports for a failure: none for an abort. */
  function Reported(f: Failure): Option<string> {
    match f
    case Abort => None
    case Error(m) => Some(if m == "" then DefaultError else m)
  }

  /** What `send`'s `try` block throws, if anything. */
  function FailureOf(reply: Reply): Option<Failure> {
    match reply
    case Rejected(f) => Some(f)
    case NoBody => Some(Error(NoBodyMessage))
    case Body(_, end) => if end.Done? then None else Some(end.failure)
  }

  /** The messages once the stream has been read as far as it goes. */
  function Streamed(base: seq<Message>, botId: int, reply: Reply, parse: string -> Event): seq<Message> {
    if reply.Body? then StampAll(base, botId, StreamEvents(reply.pieces, parse)) else base
  }

  /**
   * The messages `send` leaves: the streamed ones, less the last one
   * (`prev.slice(0, -1)`) when an error other than an abort was thrown.
   */
  function Outcome(base: seq<Message>, botId: int, reply: Reply, parse: string -> Event): seq<Message> {
    AfterFailure(Streamed(base, botId, reply, parse), FailureOf(reply))
  }

  /** `setMessages(prev => prev.slice(0, -1))` after an error that is not an abort. */
  function AfterFailure(streamed: seq<Message>, failure: Option<Failure>): seq<Message> {
    if failure.Some? && failure.value.Error? && streamed != [] then streamed[..|streamed| - 1] else streamed
  }

  /** Did the request fail with an error (not an abort)? */
  predicate Failed(reply: Reply) {
    FailureOf(reply).Some? && FailureOf(reply).value.Error?
  }

  /**
   * With a fresh assistant id, `send` leaves the earlier messages, the
   * user's message and, unless it failed, the assistant's answer built
   * from the events of the stream.
   */
  lemma OutcomeFresh(old_: seq<Message>, user: Message, botId: int, reply: Reply, parse: string -> Event)
    requires user.id != botId
    requires forall i :: 0 <= i < |old_| ==> old_[i].id != botId
    ensures var evs := if reply.Body? then StreamEvents(reply.pieces, parse) else [];
      Outcome(old_ + [user, Message(Assistant, "", None, botId)], botId, reply, parse)
        == if Failed(reply) then old_ + [user] else old_ + [user, Answer(botId, evs)]
  {
    var evs := if reply.Body? then StreamEvents(reply.pieces, parse) else [];
    var base := old_ + [user, Message(Assistant, "", None, botId)];
    StampAllFresh(old_, user, botId, evs);
    if !reply.Body? {
      assert StampAll(base, botId, []) == base;
      assert Answer(botId, []) == Message(Assistant, "", None, botId);
    }
    assert (old_ + [user, Answer(botId, evs)])[..|old_| + 1] == old_ + [user];
  }

  lemma EventsSnoc(frames: seq<string>, f: string, parse: string -> Event)
    ensures EventsOf(frames + [f], parse)
         == EventsOf(frames, parse) + (if StartsWith(f, DataPrefix) then [parse(Payload(f))] else [])
  {
    assert (frames + [f])[..|frames|] == frames;
  }

  /** The buffer and the events after one more read. */
  lemma ReadStep(pieces: seq<string>, k: nat)
    requires k < |pieces|
    ensures var before := Concat(pieces[..k]);
      && Concat(pieces[..k + 1]) == before + pieces[k]
      && Frames(Concat(pieces[..k + 1])) == Frames(before) + Frames(Pending(before) + pieces[k])
      && Pending(Concat(pieces[..k + 1])) == Pending(Pending(before) + pieces[k])
  {
    assert pieces[..k + 1][..k] == pieces[..k];
    FramesAppend(Concat(pieces[..k]), pieces[k]);
  }

  lemma EmptyStream()
    ensures Pending("") == "" && Frames("") == []
  {
    assert IndexOf("", Delimiter).None?;
  }

  /** The text and the citations after one more event. */
  lemma FoldStep(evs: seq<Event>, e: Event)
    ensures Text(evs + [e]) == Text(evs) + ChunkText(e)
    ensures LastCitations(evs + [e]) == if e.Context? then Some(e.citations.GetOr([])) else LastCitations(evs)
  {
    assert (evs + [e])[..|evs|] == evs;
  }

  /**
   * The body of the inner loop for one parsed event: a `context` event
   * replaces the citations, a `chunk` extends the text, and either is
   * copied into the assistant's message; anything else changes nothing.
   */
  method ApplyEvent(base: seq<Message>, botId: int, ghost evs: seq<Event>, ev: Event,
                    text0: string, citations0: seq<Citation>, messages0: seq<Message>)
    returns (currentText: string, currentCitations: seq<Citation>, messages: seq<Message>)
    requires text0 == Text(evs) && citations0 == LastCitations(evs).GetOr([])
    requires messages0 == StampAll(base, botId, evs)
    ensures currentText == Text(evs + [ev]) && currentCitations == LastCitations(evs + [ev]).GetOr([])
    ensures messages == StampAll(base, botId, evs + [ev])
  {
    FoldStep(evs, ev);
    StampStep(base, botId, evs, ev);
    currentText, currentCitations, messages := text0, citations0, messages0;
    match ev {
      case Context(c) =>
        currentCitations := c.GetOr([]);
        messages := WithCitations(messages, botId, currentCitations);
      case Chunk(t) =>
        currentText := currentText + t;
        messages := WithContent(messages, botId, currentText);
      case _ =>
    }
  }

  /**
   * The inner `for (const part of parts)` of `send`: fold the events of the
   * complete frames just split off into the running text, citations and messages.
   */
  method FoldFrames(base: seq<Message>, botId: int, parse: string -> Event, done: seq<string>, parts: seq<string>,
                    ghost evs0: seq<Event>, text0: string, citations0: seq<Citation>, messages0: seq<Message>)
    returns (ghost evs: seq<Event>, currentText: string, currentCitations: seq<Citation>, messages: seq<Message>)
    requires evs0 == EventsOf(done, parse)
    requires text0 == Text(evs0) && citations0 == LastCitations(evs0).GetOr([])
    requires messages0 == StampAll(base, botId, evs0)
    ensures evs == EventsOf(done + parts, parse)
    ensures currentText == Text(evs) && currentCitations == LastCitations(evs).GetOr([])
    ensures messages == StampAll(base, botId, evs)
  {
    evs, currentText, currentCitations, messages := evs0, text0, citations0, messages0;
    assert done + parts[..0] == done;
    for j := 0 to |parts|
      invariant evs == EventsOf(done + parts[..j], parse)
      invariant currentText == Text(evs)
      invariant currentCitations == LastCitations(evs).GetOr([])
      invariant messages == StampAll(base, botId, evs)
    {
      var part := parts[j];
      assert done + parts[..j + 1] == (done + parts[..j]) + [part];
      EventsSnoc(done + parts[..j], part, parse);
      if StartsWith(part, DataPrefix) {
        var payload := Payload(part);
        var ev := parse(payload);
        currentText, currentCitations, messages := ApplyEvent(base, botId, evs, ev, currentText, currentCitations, messages);
        evs := evs + [ev];
      }
    }
    assert parts[..|parts|] == parts;
  }

  /**
   * The `while (true)` loop of `send` with its `try`: read, append to the
   * buffer, split off the complete frames, fold their events into the
   * messages. Returns the messages and what was thrown, if anything.
   */
  method RunStream(base: seq<Message>, botId: int, reply: Reply, parse: string -> Event)
    returns (messages: seq<Message>, failure: Option<Failure>)
    ensures messages == Streamed(base, botId, reply, parse)
    ensures failure == FailureOf(reply)
  {
    match reply
    case Rejected(f) =>
      return base, Some(f);
    case NoBody =>
      return base, Some(Error(NoBodyMessage));
    case Body(pieces, end) =>
      var buffer := "";
      var currentText := "";
      var currentCitations: seq<Citation> := [];
      messages := base;
      ghost var evs: seq<Event> := [];
      EmptyStream();
      assert StampAll(base, botId, []) == base;
      var k := 0;
      while k < |pieces|
        invariant 0 <= k <= |pieces|
        invariant buffer == Pending(Concat(pieces[..k]))
        invariant evs == EventsOf(Frames(Concat(pieces[..k])), parse)
        invariant currentText == Text(evs)
        invariant currentCitations == LastCitations(evs).GetOr([])
        invariant messages == StampAll(base, botId, evs)
      {
        ReadStep(pieces, k);
        buffer := buffer + pieces[k];
        var parts := Split(buffer, Delimiter);
        buffer := parts[|parts| - 1];
        parts := parts[..|parts| - 1];
        evs, currentText, currentCitations, messages :=
          FoldFrames(base, botId, parse, Frames(Concat(pieces[..k])), parts, evs, currentText, currentCitations, messages);
        k := k + 1;
      }
      assert pieces[..|pieces|] == pieces;
      failure := if end.Done? then None else Some(end.failure);
  }

  /** `send` goes ahead only with a token and a query that is not blank. */
  predicate CanSend(token: string, query: string) {
    token != "" && Trim(query) != ""
  }

  /** The messages once `send` has appended the user's message and the empty assistant message. */
  function Posted(ms: seq<Message>, query: string, now: int): seq<Message> {
    ms + [Message(User, Trim(query), None, now), Message(Assistant, "", None, now + 1)]
  }

  /** The component's state that `send` reads and writes. */
  class ChatClient {
    const token: string
    var query: string
    var messages: seq<Message>
    var loading: bool
    var error: Option<string>

    constructor (token: string)
      ensures this.token == token && query == "" && messages == [] && !loading && error == None
    {
      this.token := token;
      query := "";
      messages := [];
      loading := false;
      error := None;
    }

    /** The input's `onChange`. */
    method SetQuery(q: string)
      modifies this
      ensures query == q && messages == old(messages) && loading == old(loading) && error == old(error)
    {
      query := q;
    }

    /**
     * The synchronous start of `send`: with a token and a non-blank query,
     * it clears the input, sets loading, clears the error and appends the
     * user's message and an empty assistant message; otherwise nothing.
     */
    method Start(now: int) returns (started: bool, botId: int)
      modifies this
      ensures started <==> CanSend(token, old(query))
      ensures !started ==>
        query == old(query) && messages == old(messages) && loading == old(loading) && error == old(error)
      ensures started ==> query == "" && loading && error == None && botId == now + 1
      ensures started ==> messages == Posted(old(messages), old(query), now)
    {
      if !CanSend(token, query) {
        return false, 0;
      }
      var currentQuery := Trim(query);
      query := "";
      loading := true;
      error := None;
      var userMsg := Message(User, currentQuery, None, now);
      botId := now + 1;
      messages := messages + [userMsg, Message(Assistant, "", None, botId)];
      started := true;
    }

    /**
     * `send`, run to completion. A failure other than an abort reports its
     * message and drops the last message (the assistant's); an abort keeps
     * the messages as they were. Loading is off afterwards.
     */
    method Send(now: int, reply: Reply, parse: string -> Event)
      modifies this
      ensures !CanSend(token, old(query)) ==>
        query == old(query) && messages == old(messages) && loading == old(loading) && error == old(error)
      ensures CanSend(token, old(query)) ==> query == "" && !loading
      ensures CanSend(token, old(query)) ==>
        error == (if FailureOf(reply).Some? then Reported(FailureOf(reply).value) else None)
      ensures CanSend(token, old(query)) ==>
        messages == Outcome(Posted(old(messages), old(query), now), now + 1, reply, parse)
    {
      var started, botId := Start(now);
      if !started {
        return;
      }
      var msgs, failure := RunStream(messages, botId, reply, parse);
      Finish(msgs, failure);
    }

    /**
     * The `catch` and `finally` of `send`: an error other than an abort is
     * reported and the last message dropped; loading is turned off.
     */
    method Finish(msgs: seq<Message>, failure: Option<Failure>)
      requires error == None
      modifies this
      ensures query == old(query) && !loading
      ensures error == if failure.Some? then Reported(failure.value) else None
      ensures messages == AfterFailure(msgs, failure)
    {
      messages := msgs;
      if failure.Some? && failure.value.Error? {
        error := Reported(failure.value);
        if messages != [] {
          messages := messages[..|messages| - 1];
        }
      }
      loading := false;
    }
  }
}
