# memo-ai chat relay and submit handler, in Dafny

This project models the two pieces of logic in the memo-ai chat client that have
behaviour worth stating:

- the relay endpoint `POST /api/chat` (`app/api/chat/route.ts`). It turns the
  client's message list into the generative-model SDK's call shape: every
  message but the last becomes a prior turn with one text part, role
  `assistant` becomes `model` and every other role becomes `user`, and the last
  message's content is the new turn. It answers with `{ role: 'model', content }`
  or with status 500 and `{ error }`. The error text is `API Error`, or
  `Content blocked: ` followed by the second piece of the failure message split
  at `block_reason: `, when the message mentions `block_reason`;
- the submit handler of the chat component (`components/ChatInterface.tsx`),
  which holds the message list, the input text and a loading flag. A submit of
  non-blank input while idle appends the user's message (untrimmed), clears the
  input and starts loading. When the request settles it appends the reply, or
  an assistant message `Error: ...`, and stops loading.

Modules, one per file:

- `Wrappers` (`wrappers.dfy`): `Option`, for JavaScript's `undefined`.
- `JsString` (`js_string.dfy`): `trim`, `includes` and `split` as the relay and
  the client use them. `Split` is proved against `Join` (joining the pieces
  gives the string back) and to leave no separator in any piece.
- `ChatTypes` (`chat_types.dfy`): the `{ role, content }` message. The role is a
  string, because the relay's reply carries role `model`, which the declared
  type `'user' | 'assistant'` does not admit, and nothing checks it at run time.
- `ChatRoute` (`chat_route.dfy`): the relay as pure functions. The SDK is the
  function parameter `send`, from the call shape to the generated text or a
  failure with an optional message.
- `Client` (`chat_interface.dfy`): the component as the class `ChatInterface`
  with fields `messages`, `input` and `isLoading`. `Submit` is the handler up to
  the `await`. `CompleteOk` and `CompleteErr` are the rest. `HandleSubmit` runs
  the whole handler with the request as the function parameter `fetch`. A ghost
  field records the completed exchanges. The invariant `Valid` says the list is
  their transcript, two messages per exchange, followed by the pending user
  message while loading, and that every exchange starts with a non-blank user
  message.
- `Relaying` (`relaying.dfy`): the client and the relay connected. It states
  what a relay response becomes in the client's list. Two client scenarios
  exercise the contracts: a fresh session that sends `Hi` and gets `Hello!`,
  and a second submit that is rejected while the first is in flight.

Where the code's behaviour differs from its declared types or from what its
shape suggests, the model follows the code:

- The relay's success payload has role `model`, not `assistant`
  (app/api/chat/route.ts:35). The client appends it unchecked
  (components/ChatInterface.tsx:48). On the next submit, the relay maps that
  stored reply to a `user` turn, because only `assistant` becomes `model`
  (app/api/chat/route.ts:21). `Relaying.GeneratedReplyKeepsModelRole` and
  `Relaying.ModelReplyResentAsUser` state this.
- An empty message list is not refused up front. Reading the last message
  throws inside the `try`, and the answer is the generic 500 `API Error`
  (`ChatRoute.Post`).
- A message that mentions `block_reason` with no `block_reason: ` in it gives
  `Content blocked: undefined` (template-literal text of `undefined`).
- The quoted reason stops at a second `block_reason: `, because only piece 1
  of the split is used (`ChatRoute.SecondSeparatorTruncates`).
- The reply is not validated against the message shape. Whatever the ok body
  holds is appended.

## Model

| member | source | states |
|---|---|---|
| JsString.TrimStartDrops | components/ChatInterface.tsx:18 | `trimStart`'s result is the suffix of the input left after the leading whitespace, all of which is whitespace, and does not itself start with whitespace |
| JsString.TrimEndDrops | components/ChatInterface.tsx:18 | `trimEnd`'s result is the prefix of the input before the trailing whitespace, all of which is whitespace, and does not itself end with whitespace |
| JsString.BlankIffAllWhitespace | components/ChatInterface.tsx:18 | `!input.trim()` holds exactly when every character of the input is whitespace |
| JsString.IndexOf | app/api/chat/route.ts:43-45 | a found index is an occurrence at or after the start, with none before it; no index means no occurrence from the start on |
| JsString.Includes | app/api/chat/route.ts:43 | `includes` is true exactly when the pattern occurs somewhere in the string |
| JsString.Split | app/api/chat/route.ts:45 | a split has at least one piece, and exactly one when the separator does not occur |
| JsString.SplitPiecesFree | app/api/chat/route.ts:45 | no piece of a split contains the separator |
| JsString.JoinSplit | app/api/chat/route.ts:45 | joining the pieces with the separator gives back the original string |
| JsString.SecondPiece | app/api/chat/route.ts:45 | `split(sep)[1]` is undefined exactly when the separator does not occur; otherwise it is the text after the first separator, up to the next separator or the end |
| ChatRoute.ToTurnsPointwise | app/api/chat/route.ts:20-23 | the `map` keeps length and order: turn i is the conversion of message i |
| ChatRoute.History | app/api/chat/route.ts:20-23 | the history has one entry fewer than the messages (none for an empty list); entry i has exactly one part, holding message i's content; its role is `model` iff message i's role is `assistant`, and `user` otherwise |
| ChatRoute.Call | app/api/chat/route.ts:19-30 | there is no call exactly when the list is empty; otherwise the call carries that history, and the new turn is the last message's content |
| ChatRoute.ErrorMessage | app/api/chat/route.ts:40-46 | the text is `API Error` exactly when the failure has no message or its message lacks `block_reason`; otherwise it starts with `Content blocked: `, it is `Content blocked: undefined` when `block_reason: ` does not occur, and otherwise `Content blocked: ` followed by the text after the first `block_reason: `, up to the next one or the end |
| ChatRoute.Post | app/api/chat/route.ts:10-50 | status 200 exactly for a reply, otherwise 500; a reply exactly when the list is non-empty and the SDK generated text, and then the body is role `model` with exactly that text; a failure gets status 500 and the error text derived from exactly the SDK's failure message; an empty list gets status 500 and `API Error`, whatever the SDK would do; an error body is `API Error` or starts with `Content blocked: ` |
| ChatRoute.UnmarkedIsGeneric | app/api/chat/route.ts:40-47 | a failure message that cannot contain `block_reason` yields `API Error` |
| ChatRoute.SeparatorHasMarker | app/api/chat/route.ts:43-45 | a message holding `block_reason: ` always passes the `includes('block_reason')` test |
| ChatRoute.SeparatorFirstAfter | app/api/chat/route.ts:45 | in `pre + 'block_reason: ' + reason` with no separator in `pre`, the first separator starts right after `pre` |
| ChatRoute.BlockReasonExtracted | app/api/chat/route.ts:43-46 | for a message `pre + 'block_reason: ' + reason` with no separator in `pre`, the error text is `Content blocked: ` + `reason` up to its first separator, or all of `reason` |
| ChatRoute.SecondSeparatorTruncates | app/api/chat/route.ts:43-46 | for `pre + 'block_reason: ' + a + 'block_reason: ' + b` with no separator in `pre` or `a`, the error text is `Content blocked: ` + `a`: the rest is dropped |
| ChatRoute.UnderscoreFreeReason | app/api/chat/route.ts:43-46 | the same extraction when neither side holds an underscore |
| ChatRoute.ToxicityIsQuoted | app/api/chat/route.ts:43-46 | a failure ending in `block_reason: toxicity` yields `Content blocked: toxicity` |
| Client.NotOkMessage | components/ChatInterface.tsx:40-42 | the thrown message is never empty: the body's `error` field when present and non-empty, `API request failed` otherwise |
| Client.ErrorReply | components/ChatInterface.tsx:49-57 | a failure is reported as an assistant message whose content is `Error: ` followed by exactly the failure's message |
| Client.ReplyOf | components/ChatInterface.tsx:40-57 | an ok response appends its body unchanged; a non-ok response or a thrown error appends an assistant `Error: ...` message with the matching text |
| Client.TranscriptPairs | components/ChatInterface.tsx:22-48 | completed exchanges give exactly two messages each: message 2i is exchange i's user message and message 2i+1 its reply |
| Client.TranscriptPrefix | components/ChatInterface.tsx:22-48 | more exchanges only extend the message list: the earlier list is a prefix of the later one |
| Client.ChatInterface.constructor | components/ChatInterface.tsx:12-14 | the component starts with no messages, empty input, not loading |
| Client.ChatInterface.Type | components/ChatInterface.tsx:92-95 | typing sets the input, except while loading, when the input box is disabled |
| Client.ChatInterface.Submit | components/ChatInterface.tsx:18-38 | rejected exactly when the input is blank or a request is in flight, and then nothing changes; otherwise the untrimmed input is appended as a user message after the old ones, the input becomes empty, loading starts, and the request carries the whole new list |
| Client.ChatInterface.CompleteOk | components/ChatInterface.tsx:45-60 | the reply is appended after the pending user message, the exchange is recorded, loading stops, the input is untouched |
| Client.ChatInterface.CompleteErr | components/ChatInterface.tsx:49-60 | the assistant message `Error: <message>` is appended, the exchange is recorded, loading stops, the input is untouched |
| Client.ChatInterface.HandleSubmit | components/ChatInterface.tsx:16-61 | a rejected submit changes nothing; an accepted one adds exactly two messages after the old ones, the user's and the settled reply for the request holding the whole list, and ends with empty input and not loading |
| Relaying.Deliver | components/ChatInterface.tsx:40-48 | the client reads a relay response as ok exactly when its status is 200; an ok body becomes the reply message field for field, and an error body's `error` field is passed on |
| Relaying.GeneratedReplyKeepsModelRole | app/api/chat/route.ts:34-37 | a generated reply reaches the client's list with role `model`, never `assistant`, and with exactly the generated text |
| Relaying.RelayErrorIsQuoted | components/ChatInterface.tsx:40-57 | a relay error reaches the list as `Error: ` + the relay's error text, never as the `API request failed` fallback |
| Relaying.ModelReplyResentAsUser | app/api/chat/route.ts:21 | after a successful exchange, the next request's history holds the generated reply as a `user` turn |

## Left out

- Reading the request body (`req.json()`, app/api/chat/route.ts:11) is outside the `try`, so a malformed body does not get the structured error. JSON parsing is not modelled. The model starts from a parsed list of `{ role, content }` records, and a `messages` that is not an array is not modelled.
- The SDK (`getGenerativeModel`, `startChat`, `sendMessage`, `response.text()`) is the function parameter `send`. `fetch`, `NextResponse` and JSON encoding are the function parameter `fetch` and the `Relaying.Deliver` reading. A failure that the SDK throws while the model or session is being set up behaves like a failure of `send`.
- The model name and `generationConfig` (app/api/chat/route.ts:15, 24-27) are opaque SDK settings, and the temperature is a floating-point number.
- `console.log` and `console.error`, `e.preventDefault()`, and all rendering (keys, animation, styling) are left out.
- Client.ChatInterface.HandleSubmit: React state updates are taken to apply at once. Two submits dispatched before a re-render would both see the stale `isLoading == false`. This model does not capture that.
- Client.FetchResult: `errorData.error` is modelled as an optional string. A falsy non-string value (`null`, `0`, `false`) falls back like a missing one, but a truthy non-string value would be stringified, and this model does not capture that. A thrown value without a `message` gives `Error: undefined`. The model takes the thrown message as a string.
- ChatRoute.SdkOutcome: a failure whose `message` is not a string is not modelled.
- Client.FetchResult: an ok body of any shape other than a `{ role, content }` record with string fields is not modelled. `Replied` carries a `Message`, and the relay never sends another shape on status 200.
- JavaScript strings are sequences of UTF-16 code units and may hold lone surrogates, which a Dafny `char` cannot represent. Messages holding them are not modelled. The separator `block_reason: ` is ASCII, so a split never cuts a surrogate pair.
- The `Conversation` record (types/chat.ts:6-11), the conversation store, persistence, title derivation and conversation switching are not implemented by the relay or the chat component. They are not part of this model.
- The sidebar, hover-text, background and hero-highlight components and the page layout are presentation only.
