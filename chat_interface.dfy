/** The chat client's submit handler. The component keeps three pieces of
    state: the message list shown, the text in the input box, and whether a
    request is in flight. A submit of non-blank text while idle appends the
    user's message, clears the input and starts loading; when the request
    settles, the reply (or an `Error: ...` assistant message) is appended and
    loading stops. The `await` splits the handler in two: `Submit` is the part
    before it, `CompleteOk` and `CompleteErr` the part after. */
module Client {
  import opened Wrappers
  import opened JsString
  import opened ChatTypes

  /** How the request settled, as the handler sees it: an ok response whose
      body is used as the reply message; a response that is not ok, with the
      `error` field of its body (missing or not); or a rejected `fetch` or
      body parse, with the thrown error's message. */
  datatype FetchResult =
    | Replied(reply: Message)
    | NotOk(error: Option<string>)
    | Threw(message: string)

  /** A completed exchange: the user's message and what was appended after it. */
  datatype Exchange = Exchange(prompt: Message, reply: Message)

  const ErrorPrefix: string := "Error: "
  const RequestFailed: string := "API request failed"

  /** The message of the error thrown for a response that is not ok:
      `errorData.error || 'API request failed'`. */
  function NotOkMessage(error: Option<string>): (r: string)
    ensures r != []
    ensures error.Some? && error.value != [] ==> r == error.value
    ensures error.None? || error.value == [] ==> r == RequestFailed
  {
    if error.Some? && error.value != [] then error.value else RequestFailed
  }

  /** The synthetic assistant message that reports a failed exchange. */
  function ErrorReply(message: string): (m: Message)
    ensures m.role == AssistantRole
    ensures |ErrorPrefix| <= |m.content| && m.content[..|ErrorPrefix|] == ErrorPrefix
    ensures m.content[|ErrorPrefix|..] == message
  {
    Message(AssistantRole, ErrorPrefix + message)
  }

  /** The message the handler appends once the request has settled. */
  function ReplyOf(result: FetchResult): (m: Message)
    ensures result.Replied? ==> m == result.reply
    ensures !result.Replied? ==> m.role == AssistantRole
    ensures result.NotOk? ==> m == ErrorReply(NotOkMessage(result.error))
    ensures result.Threw? ==> m == ErrorReply(result.message)
  {
    match result
    case Replied(reply) => reply
    case NotOk(error) => ErrorReply(NotOkMessage(error))
    case Threw(message) => ErrorReply(message)
  }

  /** The message list made by a run of completed exchanges, oldest first. */
  function Transcript(xs: seq<Exchange>): seq<Message> {
    if xs == [] then [] else Transcript(xs[..|xs| - 1]) + [xs[|xs| - 1].prompt, xs[|xs| - 1].reply]
  }

  /** Every exchange contributes two messages, its prompt then its reply, in
      the order the exchanges happened. */
  lemma {:induction false} TranscriptPairs(xs: seq<Exchange>)
    ensures |Transcript(xs)| == 2 * |xs|
    ensures forall i :: 0 <= i < |xs| ==> Transcript(xs)[2 * i] == xs[i].prompt
    ensures forall i :: 0 <= i < |xs| ==> Transcript(xs)[2 * i + 1] == xs[i].reply
  {
    if xs != [] {
      TranscriptPairs(xs[..|xs| - 1]);
    }
  }

  /** A longer run of exchanges only extends the transcript of a shorter one. */
  lemma {:induction false} TranscriptPrefix(xs: seq<Exchange>, ys: seq<Exchange>)
    requires xs <= ys
    ensures Transcript(xs) <= Transcript(ys)
    decreases |ys|
  {
    if |xs| < |ys| {
      TranscriptPrefix(xs, ys[..|ys| - 1]);
    } else {
      assert xs == ys;
    }
  }

  /** Completing one more exchange appends its two messages. */
  lemma TranscriptSnoc(xs: seq<Exchange>, x: Exchange)
    ensures Transcript(xs + [x]) == Transcript(xs) + [x.prompt, x.reply]
  {
  }

  /** A user message the handler accepted. */
  predicate IsPrompt(m: Message) {
    m.role == UserRole && !AllWhitespace(m.content)
  }

  class ChatInterface {
    var messages: seq<Message>
    var input: string
    var isLoading: bool
    /** The exchanges completed so far. */
    ghost var exchanges: seq<Exchange>

    /** The message list is the transcript of the completed exchanges,
        followed, while a request is in flight, by the user message it
        carries; every exchange starts with a non-blank user message. */
    ghost predicate Valid()
      reads this
    {
      (forall i :: 0 <= i < |exchanges| ==> IsPrompt(exchanges[i].prompt)) &&
      if isLoading then
        |messages| > 0 &&
        messages[..|messages| - 1] == Transcript(exchanges) &&
        IsPrompt(messages[|messages| - 1])
      else
        messages == Transcript(exchanges)
    }

    /** The component's initial state. */
    constructor ()
      ensures Valid()
      ensures messages == [] && input == [] && !isLoading && exchanges == []
    {
      messages, input, isLoading := [], [], false;
      exchanges := [];
    }

    /** Typing into the input box; the box is disabled while loading. */
    method Type(text: string)
      requires Valid()
      modifies this`input
      ensures Valid()
      ensures input == if isLoading then old(input) else text
    {
      if !isLoading {
        input := text;
      }
    }

    /** The half of `handleSubmit` before the request: rejected, changing
        nothing, when the input is blank or a request is in flight; otherwise
        the input is appended as a user message, the input is cleared, loading
        starts, and the request carries the whole new message list. */
    method Submit() returns (request: Option<seq<Message>>)
      requires Valid()
      modifies this
      ensures Valid()
      ensures request.None? <==> old(isLoading) || IsBlank(old(input))
      ensures request.None? ==> unchanged(this)
      ensures request.Some? ==>
                messages == old(messages) + [Message(UserRole, old(input))] &&
                input == [] && isLoading && exchanges == old(exchanges) &&
                request.value == messages
    {
      if IsBlank(input) || isLoading {
        return None;
      }
      BlankIffAllWhitespace(input);
      isLoading := true;
      var newMessages := messages + [Message(UserRole, input)];
      assert newMessages[..|newMessages| - 1] == messages;
      messages := newMessages;
      input := [];
      request := Some(newMessages);
    }

    /** The half after the request, for an ok response: the body is appended
        as it is and loading stops. */
    method CompleteOk(reply: Message)
      requires Valid() && isLoading
      modifies this`messages, this`isLoading, this`exchanges
      ensures Valid()
      ensures messages == old(messages) + [reply] && !isLoading && input == old(input)
      ensures exchanges == old(exchanges) + [Exchange(old(messages)[|old(messages)| - 1], reply)]
    {
      Append(reply);
    }

    /** The half after the request, for a failure: an assistant message
        `Error: <message>` is appended and loading stops. */
    method CompleteErr(message: string)
      requires Valid() && isLoading
      modifies this`messages, this`isLoading, this`exchanges
      ensures Valid()
      ensures messages == old(messages) + [ErrorReply(message)] && !isLoading && input == old(input)
      ensures exchanges == old(exchanges) + [Exchange(old(messages)[|old(messages)| - 1], ErrorReply(message))]
    {
      Append(ErrorReply(message));
    }

    /** `setMessages(prev => [...prev, reply])` followed by the `finally`
        block's `setIsLoading(false)`. */
    method Append(reply: Message)
      requires Valid() && isLoading
      modifies this`messages, this`isLoading, this`exchanges
      ensures Valid()
      ensures messages == old(messages) + [reply] && !isLoading && input == old(input)
      ensures exchanges == old(exchanges) + [Exchange(old(messages)[|old(messages)| - 1], reply)]
    {
      var prompt := messages[|messages| - 1];
      assert messages == Transcript(exchanges) + [prompt];
      TranscriptSnoc(exchanges, Exchange(prompt, reply));
      messages := messages + [reply];
      isLoading := false;
      exchanges := exchanges + [Exchange(prompt, reply)];
    }

    /** The whole of `handleSubmit`, with `fetch` standing for the request to
        the relay and the parsing of its response. An accepted submit adds
        exactly two messages, the user's and the settled reply, after the
        ones already there. */
    method HandleSubmit(fetch: seq<Message> -> FetchResult)
      requires Valid()
      modifies this
      ensures Valid()
      ensures old(isLoading) || IsBlank(old(input)) ==> unchanged(this)
      ensures !(old(isLoading) || IsBlank(old(input))) ==>
                var prompt := Message(UserRole, old(input));
                messages == old(messages) + [prompt, ReplyOf(fetch(old(messages) + [prompt]))] &&
                input == [] && !isLoading &&
                exchanges == old(exchanges) + [Exchange(prompt, ReplyOf(fetch(old(messages) + [prompt])))]
    {
      var request := Submit();
      if request.Some? {
        ghost var prompt := Message(UserRole, old(input));
        assert request.value == old(messages) + [prompt];
        var result := fetch(request.value);
        match result {
          case Replied(reply) => CompleteOk(reply);
          case NotOk(error) => CompleteErr(NotOkMessage(error));
          case Threw(message) => CompleteErr(message);
        }
        assert messages == old(messages) + [prompt, ReplyOf(result)];
      }
    }
  }
}
