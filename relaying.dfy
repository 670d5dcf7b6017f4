/** The client and the relay together: how a relay response reaches the
    client's submit handler, and what ends up in the client's message list.
    The relay answers with role `'model'`, the client stores that reply as it
    is, and the relay maps every role but `'assistant'` to `'user'`: a
    generated reply goes back to the service, on the next submit, as a user
    turn. */
module Relaying {
  import opened Wrappers
  import opened ChatTypes
  import JsString
  import ChatRoute
  import Client

  /** What the client makes of a relay response: status 200 is `ok` and its
      body is taken as the reply message; the relay's only other status, 500,
      is not ok, and the client reads the body's `error` field. */
  function Deliver(resp: ChatRoute.Response): (f: Client.FetchResult)
    requires resp.status == ChatRoute.OkStatus <==> resp.body.Reply?
    ensures f.Replied? <==> resp.status == ChatRoute.OkStatus
    ensures f.Replied? ==> f.reply == Message(resp.body.role, resp.body.content)
    ensures f.NotOk? ==> f.error == Some(resp.body.error)
  {
    match resp.body
    case Reply(role, content) => Client.Replied(Message(role, content))
    case ErrorBody(error) => Client.NotOk(Some(error))
  }

  /** The request the client sends, answered by the relay over the SDK `send`. */
  function Fetch(send: ChatRoute.ChatCall -> ChatRoute.SdkOutcome): seq<Message> -> Client.FetchResult {
    ms => Deliver(ChatRoute.Post(ms, send))
  }

  /** A generated reply reaches the client's list with role `'model'`, never
      `'assistant'`, and with exactly the generated text. */
  lemma GeneratedReplyKeepsModelRole(ms: seq<Message>, send: ChatRoute.ChatCall -> ChatRoute.SdkOutcome)
    requires ms != []
    requires send(ChatRoute.ChatCall(ChatRoute.History(ms), ms[|ms| - 1].content)).Generated?
    ensures Client.ReplyOf(Fetch(send)(ms)).role == ModelRole
    ensures Client.ReplyOf(Fetch(send)(ms)).role != AssistantRole
    ensures Client.ReplyOf(Fetch(send)(ms)).content
            == send(ChatRoute.ChatCall(ChatRoute.History(ms), ms[|ms| - 1].content)).text
  {
  }

  /** A relay failure reaches the client's list as `Error: ` followed by the
      relay's own error text: that text is never empty, so the client's
      `'API request failed'` fallback is never used for it. */
  lemma RelayErrorIsQuoted(ms: seq<Message>, send: ChatRoute.ChatCall -> ChatRoute.SdkOutcome)
    requires ChatRoute.Post(ms, send).body.ErrorBody?
    ensures Client.ReplyOf(Fetch(send)(ms))
            == Client.ErrorReply(ChatRoute.Post(ms, send).body.error)
    ensures Client.ReplyOf(Fetch(send)(ms)).content != Client.ErrorPrefix + Client.RequestFailed
  {
  }

  /** After a successful exchange the stored reply, role `'model'`, goes back
      to the service in the next request's history as a `'user'` turn. */
  lemma ModelReplyResentAsUser(ms: seq<Message>, send: ChatRoute.ChatCall -> ChatRoute.SdkOutcome, next: Message)
    requires ms != []
    requires send(ChatRoute.ChatCall(ChatRoute.History(ms), ms[|ms| - 1].content)).Generated?
    ensures var later := ms + [Client.ReplyOf(Fetch(send)(ms)), next];
            ChatRoute.History(later)[|ms|].role == UserRole
  {
  }

  /** A fresh session: `Hi` is submitted, and the service generates `Hello!`,
      which is stored with role `model`. */
  method HelloScenario()
  {
    var ui := new Client.ChatInterface();
    ui.Type("Hi");
    HiIsNotBlank();
    var request := ui.Submit();
    HelloIsRelayed();
    var answer := Fetch(call => ChatRoute.Generated("Hello!"))(request.value);
    ui.CompleteOk(answer.reply);
    assert ui.messages == [Message(UserRole, "Hi"), Message(ModelRole, "Hello!")];
  }

  lemma HiIsNotBlank()
    ensures !JsString.IsBlank("Hi")
  {
  }

  lemma HelloIsRelayed()
    ensures Fetch(call => ChatRoute.Generated("Hello!"))([Message(UserRole, "Hi")])
            == Client.Replied(Message(ModelRole, "Hello!"))
  {
  }

  /** A submit while a request is in flight is rejected and adds nothing. */
  method BusyScenario()
  {
    var ui := new Client.ChatInterface();
    ui.Type("Hi");
    HiIsNotBlank();
    var first := ui.Submit();
    ui.Type("again");
    var second := ui.Submit();
    assert second.None? && ui.messages == [Message(UserRole, "Hi")];
  }
}
