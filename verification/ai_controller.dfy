/** The `chat` route in front of the assistant. */
module AiController {
  import opened Base
  import opened Js
  import opened GuestStore
  import opened AiTools
  import opened AiChat

  const MessageRequired := "'message' is required"
  const ChatError := "Chat error"

  datatype ChatBody = ChatReply(reply: string) | ChatFailure(error: string)

  datatype ChatResponse = ChatResponse(status: int, body: ChatBody)

  /** `chat`: a request without a non-empty string `message` is a 400 and
      never reaches the model; otherwise the service's reply is a 200 and an
      error escaping it a 500 with its message. `reply` is the service's
      result, and `requests` the requests it sent. */
  method Chat(message: Value, apiKey: Option<string>, s: Store,
              complete: CompletionRequest -> Result<Completion, string>,
              parse: string -> Result<ToolArgs, string>, limits: LimitPolicy)
    returns (r: ChatResponse, reply: Result<string, string>, requests: seq<CompletionRequest>)
    ensures r.status in {200, 400, 500}
    ensures message.Str? && message.s != "" ==> ReplyFollows(requests, complete, reply) && |requests| <= 2
    ensures message.Str? && message.s != "" && reply.Ok? ==> r == ChatResponse(200, ChatReply(reply.value))
    ensures message.Str? && message.s != "" && reply.Err? ==>
              r == ChatResponse(500, ChatFailure(if reply.error != "" then reply.error else ChatError))
    ensures r.status == 400 <==> !(message.Str? && message.s != "")
    ensures r.status == 400 ==> r.body == ChatFailure(MessageRequired) && requests == []
    ensures r.status == 200 ==> r.body.ChatReply?
    ensures r.status == 500 ==> r.body.ChatFailure? && r.body.error != ""
    ensures message.Str? && message.s != "" && (apiKey.None? || apiKey.value == "") ==>
              r == ChatResponse(200, ChatReply(MissingKeyReply)) && requests == []
    ensures requests != [] ==> message.Str? && requests[0] == CompletionRequest(Opening(message.s), true)
  {
    if !Truthy(message) || !message.Str? {
      return ChatResponse(400, ChatFailure(MessageRequired)), Err(MessageRequired), [];
    }
    reply, requests := ChatWithAI(apiKey, message.s, s, complete, parse, limits);
    match reply
    case Ok(text) => r := ChatResponse(200, ChatReply(text));
    case Err(e) => r := ChatResponse(500, ChatFailure(if e != "" then e else ChatError));
  }
}
