/** The relay endpoint `POST /api/chat`. It reshapes the client's message list
    into the call shape of the generative-model SDK (the prior turns that seed
    a chat session, and the text of the new turn), hands that to the SDK, and
    turns what comes back into a JSON response: the generated reply, or a
    status-500 error whose text tells a content-safety block apart from any
    other failure. The SDK itself is the parameter `send`. */
module ChatRoute {
  import opened Wrappers
  import opened JsString
  import opened ChatTypes

  /** One `{ text }` entry of a turn's `parts`. */
  datatype Part = Part(text: string)

  /** A prior turn in the shape `startChat({ history })` takes. */
  datatype Turn = Turn(role: string, parts: seq<Part>)

  /** What reaches the SDK: the history that seeds the chat session and the
      text passed to `sendMessage`. */
  datatype ChatCall = ChatCall(history: seq<Turn>, message: string)

  /** How the SDK call ends: the generated text, or a thrown value whose
      `message` property may be missing. */
  datatype SdkOutcome = Generated(text: string) | Failed(message: Option<string>)

  /** The JSON body of the relay's response. */
  datatype ResponseBody = Reply(role: string, content: string) | ErrorBody(error: string)

  datatype Response = Response(status: nat, body: ResponseBody)

  const OkStatus: nat := 200
  const ServerErrorStatus: nat := 500
  const GenericError: string := "API Error"
  /** The substring that marks a content-safety rejection. */
  const BlockMarker: string := "block_reason"
  /** The separator whose second split piece is quoted as the block reason. */
  const BlockSeparator: string := "block_reason: "
  const BlockedPrefix: string := "Content blocked: "
  /** What a template literal makes of `undefined`. */
  const UndefinedText: string := "undefined"
  /** The TypeError a JavaScript engine (V8) throws for
      `messages[messages.length - 1].content` when `messages` is empty. */
  const EmptyHistoryError: string := "Cannot read properties of undefined (reading 'content')"

  /** The SDK's role for a prior turn: `'model'` for an assistant message, and
      `'user'` for every other role value. */
  function SdkRole(role: string): string {
    if role == AssistantRole then ModelRole else UserRole
  }

  /** A message as a prior turn with a single text part. */
  function ToTurn(m: Message): Turn {
    Turn(SdkRole(m.role), [Part(m.content)])
  }

  /** `ms.map(ToTurn)` */
  function ToTurns(ms: seq<Message>): seq<Turn> {
    if ms == [] then [] else [ToTurn(ms[0])] + ToTurns(ms[1..])
  }

  /** Mapping keeps the length and order: entry `i` is the image of message `i`. */
  lemma {:induction false} ToTurnsPointwise(ms: seq<Message>)
    ensures |ToTurns(ms)| == |ms|
    ensures forall i :: 0 <= i < |ms| ==> ToTurns(ms)[i] == ToTurn(ms[i])
  {
    if ms != [] {
      ToTurnsPointwise(ms[1..]);
      assert forall i :: 1 <= i < |ms| ==> ms[1..][i - 1] == ms[i];
    }
  }

  /** `ms.slice(0, -1)`: everything but the last message; empty for an empty list. */
  function DropLast(ms: seq<Message>): seq<Message> {
    if ms == [] then [] else ms[..|ms| - 1]
  }

  /** The `history` given to `startChat`: one turn per message but the last, in
      order, each turn the message's content as its only part, with role
      `'model'` exactly when the message's role is `'assistant'`. */
  function History(ms: seq<Message>): (h: seq<Turn>)
    ensures |h| == if ms == [] then 0 else |ms| - 1
    ensures forall i :: 0 <= i < |h| ==> h[i].parts == [Part(ms[i].content)]
    ensures forall i :: 0 <= i < |h| ==> (h[i].role == ModelRole <==> ms[i].role == AssistantRole)
    ensures forall i :: 0 <= i < |h| ==> (h[i].role == UserRole <==> ms[i].role != AssistantRole)
  {
    ToTurnsPointwise(DropLast(ms));
    ToTurns(DropLast(ms))
  }

  /** The SDK call for a message list: `None` when the list is empty, because
      reading the last message's `content` then throws. Otherwise the history
      and, as the new turn, the content of the last message. */
  function Call(ms: seq<Message>): (c: Option<ChatCall>)
    ensures c.None? <==> ms == []
    ensures c.Some? ==> c.value.history == History(ms)
    ensures c.Some? ==> c.value.message == ms[|ms| - 1].content
  {
    if ms == [] then None else Some(ChatCall(History(ms), ms[|ms| - 1].content))
  }

  /** The error text for a caught failure: `'API Error'`, unless the failure's
      message mentions `block_reason`, in which case `'Content blocked: '`
      followed by the second piece of the message split at `'block_reason: '`
      (the text `undefined` when there is no such piece). */
  function ErrorMessage(thrown: Option<string>): (r: string)
    ensures r == GenericError <==> !(thrown.Some? && Occurs(thrown.value, BlockMarker))
    ensures r != GenericError ==> |BlockedPrefix| <= |r| && r[..|BlockedPrefix|] == BlockedPrefix
    ensures thrown.Some? && Occurs(thrown.value, BlockMarker) && !Occurs(thrown.value, BlockSeparator)
            ==> r == BlockedPrefix + UndefinedText
    ensures thrown.Some? && IndexOf(thrown.value, BlockSeparator, 0).Some? ==>
              r == BlockedPrefix + UpTo(thrown.value[IndexOf(thrown.value, BlockSeparator, 0).value + |BlockSeparator|..],
                                        BlockSeparator)
  {
    SeparatorHasMarker(if thrown.Some? then thrown.value else []);
    if thrown.Some? && Includes(thrown.value, BlockMarker) then
      var reason := SecondPiece(thrown.value, BlockSeparator);
      var text := BlockedPrefix + (if reason.Some? then reason.value else UndefinedText);
      assert text[0] != GenericError[0];
      text
    else
      GenericError
  }

  /** The relay's response to a message list, with `send` standing for the
      SDK's `sendMessage` on a chat session seeded with the call's history. */
  function Post(ms: seq<Message>, send: ChatCall -> SdkOutcome): (resp: Response)
    ensures resp.status == OkStatus <==> resp.body.Reply?
    ensures resp.status == OkStatus || resp.status == ServerErrorStatus
    ensures resp.body.Reply? <==> ms != [] && send(ChatCall(History(ms), ms[|ms| - 1].content)).Generated?
    ensures resp.body.Reply? ==>
              resp.body == Reply(ModelRole, send(ChatCall(History(ms), ms[|ms| - 1].content)).text)
    ensures ms != [] && send(ChatCall(History(ms), ms[|ms| - 1].content)).Failed? ==>
              resp == Response(ServerErrorStatus,
                               ErrorBody(ErrorMessage(send(ChatCall(History(ms), ms[|ms| - 1].content)).message)))
    ensures ms == [] ==> resp == Response(ServerErrorStatus, ErrorBody(GenericError))
    ensures resp.body.ErrorBody? ==>
              resp.body.error == GenericError ||
              (|BlockedPrefix| <= |resp.body.error| && resp.body.error[..|BlockedPrefix|] == BlockedPrefix)
  {
    match Call(ms)
    case None =>
      EmptyHistoryErrorUnmarked();
      UnmarkedIsGeneric(EmptyHistoryError);
      Response(ServerErrorStatus, ErrorBody(ErrorMessage(Some(EmptyHistoryError))))
    case Some(call) =>
      match send(call)
      case Generated(text) => Response(OkStatus, Reply(ModelRole, text))
      case Failed(message) => Response(ServerErrorStatus, ErrorBody(ErrorMessage(message)))
  }

  /** A pattern holding a character the string lacks does not occur in it. */
  lemma AbsentCharNoOccurrence(s: string, pat: string, j: nat)
    requires j < |pat| && pat[j] !in s
    ensures !Occurs(s, pat)
  {
  }

  /** A failure message without an underscore cannot mention `block_reason`. */
  lemma UnmarkedIsGeneric(message: string)
    requires '_' !in message
    ensures ErrorMessage(Some(message)) == GenericError
  {
    assert BlockMarker[5] == '_';
    AbsentCharNoOccurrence(message, BlockMarker, 5);
  }

  lemma EmptyHistoryErrorUnmarked()
    ensures '_' !in EmptyHistoryError
  {
    NoUnderscoreHead();
    NoUnderscoreTail();
    assert EmptyHistoryError == "Cannot read properties " + "of undefined (reading 'content')";
  }

  lemma NoUnderscoreHead()
    ensures '_' !in "Cannot read properties "
  {
  }

  lemma NoUnderscoreTail()
    ensures '_' !in "of undefined (reading 'content')"
  {
  }

  /** The separator starts with the only `b` it holds, so an occurrence of it
      that begins inside `pre` and reaches past it is impossible. */
  lemma SeparatorFirstAfter(pre: string, reason: string)
    requires !Occurs(pre, BlockSeparator)
    ensures IndexOf(pre + BlockSeparator + reason, BlockSeparator, 0) == Some(|pre|)
  {
    var m := pre + BlockSeparator + reason;
    assert OccursAt(m, BlockSeparator, |pre|) by {
      assert m[|pre|..|pre| + |BlockSeparator|] == BlockSeparator;
    }
    forall k: nat | k < |pre| ensures !OccursAt(m, BlockSeparator, k) {
      if k + |BlockSeparator| <= |pre| {
        assert !OccursAt(pre, BlockSeparator, k);
        assert m[k..k + |BlockSeparator|] == pre[k..k + |BlockSeparator|];
      } else {
        var d := |pre| - k;
        assert m[|pre|] == BlockSeparator[0];
        assert BlockSeparator[d] != BlockSeparator[0];
        assert m[k..k + |BlockSeparator|][d] == m[|pre|];
      }
    }
  }

  /** An occurrence of the separator is an occurrence of the marker. */
  lemma SeparatorHasMarker(s: string)
    ensures Occurs(s, BlockSeparator) ==> Occurs(s, BlockMarker)
  {
    if Occurs(s, BlockSeparator) {
      var k: nat :| OccursAt(s, BlockSeparator, k);
      assert s[k..k + |BlockMarker|] == s[k..k + |BlockSeparator|][..|BlockMarker|];
      assert OccursAt(s, BlockMarker, k);
    }
  }

  /** A message `pre + 'block_reason: ' + reason`, where the separator does not
      occur in `pre`, is reported as `'Content blocked: '` followed by `reason`
      up to its own first separator, if any. */
  lemma BlockReasonExtracted(pre: string, reason: string)
    requires !Occurs(pre, BlockSeparator)
    ensures ErrorMessage(Some(pre + BlockSeparator + reason)) == BlockedPrefix + UpTo(reason, BlockSeparator)
  {
    var m := pre + BlockSeparator + reason;
    SeparatorFirstAfter(pre, reason);
    assert m[|pre| + |BlockSeparator|..] == reason;
  }

  /** A second separator cuts the quoted reason short: for
      `pre + 'block_reason: ' + a + 'block_reason: ' + b`, with no separator in
      `pre` or in `a`, the reason is `a`. */
  lemma SecondSeparatorTruncates(pre: string, a: string, b: string)
    requires !Occurs(pre, BlockSeparator) && !Occurs(a, BlockSeparator)
    ensures ErrorMessage(Some(pre + BlockSeparator + a + BlockSeparator + b)) == BlockedPrefix + a
  {
    BlockReasonExtracted(pre, a + BlockSeparator + b);
    SeparatorFirstAfter(a, b);
    assert pre + BlockSeparator + a + BlockSeparator + b == pre + BlockSeparator + (a + BlockSeparator + b);
    assert (a + BlockSeparator + b)[..|a|] == a;
  }

  /** With no underscore before or after the separator, the block reason is
      everything after `'block_reason: '`. */
  lemma UnderscoreFreeReason(pre: string, reason: string)
    requires '_' !in pre && '_' !in reason
    ensures ErrorMessage(Some(pre + BlockSeparator + reason)) == BlockedPrefix + reason
  {
    assert BlockSeparator[5] == '_';
    AbsentCharNoOccurrence(pre, BlockSeparator, 5);
    AbsentCharNoOccurrence(reason, BlockSeparator, 5);
    BlockReasonExtracted(pre, reason);
  }

  /** A safety rejection whose message ends in `block_reason: toxicity`
      yields the reason `toxicity` in the error text. */
  lemma ToxicityIsQuoted(pre: string)
    requires '_' !in pre
    ensures ErrorMessage(Some(pre + BlockSeparator + "toxicity")) == BlockedPrefix + "toxicity"
  {
    UnderscoreFreeReason(pre, "toxicity");
  }
}
