/**
 * `chatWithAI`: one question to the language model, with at most one round
 * of tool calls in between.
 */
module AiChat {
  import opened Base
  import opened Js
  import opened GuestStore
  import opened AiTools

  const SystemPrompt := "You are an assistant for a wedding admin dashboard. You can query a MongoDB guests collection via tools to answer questions about guests, attendance, meals, and accommodations. Always be concise and answer in French. If needed, call tools to fetch exact numbers or lists."
  const MissingKeyReply := "Clé OpenAI manquante. Veuillez configurer OPENAI_API_KEY."
  const NoChoice := "Cannot read properties of undefined (reading 'message')"

  /** The conversation sent to the model. */
  datatype Message =
    | SystemMessage(content: string)
    | UserMessage(content: string)
    | AssistantMessage(content: string, toolCalls: seq<ToolCall>)
    | ToolMessage(toolCallId: string, payload: ToolPayload)

  /** The model's message in a choice: its text, which may be null, and the
      tool calls it asks for, which may be absent. */
  datatype AssistantReply = AssistantReply(content: Option<string>, toolCalls: Option<seq<ToolCall>>)

  datatype Completion = Completion(choices: seq<AssistantReply>)

  /** A request to the model: the conversation so far, and whether the three
      tools are offered. */
  datatype CompletionRequest = CompletionRequest(messages: seq<Message>, offersTools: bool)

  /** `content ?? ""`. */
  function TextOf(reply: AssistantReply): string
  {
    if reply.content.Some? then reply.content.value else ""
  }

  /** The first request: the system prompt, then the user's message. */
  function Opening(userMessage: string): seq<Message>
  {
    [SystemMessage(SystemPrompt), UserMessage(userMessage)]
  }

  /** The answer to one tool call, attributed to the call's id. */
  function Answer(call: ToolCall, s: Store, parse: string -> Result<ToolArgs, string>, limits: LimitPolicy): Message
  {
    ToolMessage(call.id, ExecuteCall(call, s, parse, limits))
  }

  /** The reply the requests sent lead to: the fixed reply when none was
      sent; with one, the endpoint's error, the error of reading a missing
      first choice, or the text of a first choice that asks for no tool; with
      two, the same reading of the second answer. */
  predicate ReplyFollows(requests: seq<CompletionRequest>, complete: CompletionRequest -> Result<Completion, string>,
                         reply: Result<string, string>)
  {
    && (requests == [] ==> reply == Ok(MissingKeyReply))
    && (|requests| == 1 ==>
          var first := complete(requests[0]);
          || (first.Err? && reply == Err(first.error))
          || (first.Ok? && |first.value.choices| == 0 && reply == Err(NoChoice))
          || (first.Ok? && |first.value.choices| > 0
              && var choice := first.value.choices[0];
                 (choice.toolCalls.None? || |choice.toolCalls.value| == 0) && reply == Ok(TextOf(choice))))
    && (|requests| == 2 ==>
          var second := complete(requests[1]);
          || (second.Err? && reply == Err(second.error))
          || (second.Ok? && |second.value.choices| == 0 && reply == Err(NoChoice))
          || (second.Ok? && |second.value.choices| > 0 && reply == Ok(TextOf(second.value.choices[0]))))
  }

  /** The requests sent and the endpoint's answers fix the reply: at most
      one reply follows from them. */
  lemma ReplyDetermined(requests: seq<CompletionRequest>, complete: CompletionRequest -> Result<Completion, string>,
                        a: Result<string, string>, b: Result<string, string>)
    requires |requests| <= 2
    requires ReplyFollows(requests, complete, a) && ReplyFollows(requests, complete, b)
    ensures a == b
  {
  }

  /** `chatWithAI(userMessage)`. `apiKey` is the configured key, `complete`
      the model endpoint (a failed request is the message it throws), `s`
      the guest collection the tools read and `parse` the JSON parser of
      the tool arguments. The result is the reply, or the message of the
      error that escapes; `requests` are the requests sent, in order. */
  method ChatWithAI(apiKey: Option<string>, userMessage: string, s: Store,
                    complete: CompletionRequest -> Result<Completion, string>,
                    parse: string -> Result<ToolArgs, string>, limits: LimitPolicy)
    returns (reply: Result<string, string>, requests: seq<CompletionRequest>)
    ensures apiKey.None? || apiKey.value == "" <==> requests == []
    ensures requests != [] ==> requests[0] == CompletionRequest(Opening(userMessage), true)
    ensures |requests| <= 2
    ensures ReplyFollows(requests, complete, reply)
    ensures |requests| == 2 ==>
              var first := complete(requests[0]);
              && first.Ok? && |first.value.choices| > 0
              && var choice := first.value.choices[0];
                 && choice.toolCalls.Some? && |choice.toolCalls.value| > 0
                 && var calls := choice.toolCalls.value;
                    var conversation := requests[1].messages;
                    && !requests[1].offersTools
                    && |conversation| == 3 + |calls|
                    && conversation[..3] == Opening(userMessage) + [AssistantMessage(TextOf(choice), calls)]
                    && (forall i :: 0 <= i < |calls| ==>
                          conversation[3 + i] == Answer(calls[i], s, parse, limits))
  {
    if apiKey.None? || apiKey.value == "" {
      return Ok(MissingKeyReply), [];
    }
    var opening := Opening(userMessage);
    var firstRequest := CompletionRequest(opening, true);
    requests := [firstRequest];
    var first := complete(firstRequest);
    if first.Err? {
      return Err(first.error), requests;
    }
    if |first.value.choices| == 0 {
      return Err(NoChoice), requests;
    }
    var choice := first.value.choices[0];
    if choice.toolCalls.None? || |choice.toolCalls.value| == 0 {
      return Ok(TextOf(choice)), requests;
    }
    var calls := choice.toolCalls.value;
    var messages := opening + [AssistantMessage(TextOf(choice), calls)];
    var i := 0;
    while i < |calls|
      invariant 0 <= i <= |calls|
      invariant |messages| == 3 + i
      invariant messages[..3] == opening + [AssistantMessage(TextOf(choice), calls)]
      invariant forall j :: 0 <= j < i ==> messages[3 + j] == Answer(calls[j], s, parse, limits)
    {
      messages := messages + [Answer(calls[i], s, parse, limits)];
      i := i + 1;
    }
    var secondRequest := CompletionRequest(messages, false);
    requests := requests + [secondRequest];
    var second := complete(secondRequest);
    if second.Err? {
      return Err(second.error), requests;
    }
    if |second.value.choices| == 0 {
      return Err(NoChoice), requests;
    }
    return Ok(TextOf(second.value.choices[0])), requests;
  }
}
