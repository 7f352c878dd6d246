/** The chat-completion exchange with the model provider, as plain values: the configuration the
    requests are built from, the request that is posted, and what comes back. */
module Chat {
  import opened Errors

  /** The configuration fields the two requests read. */
  datatype Config = Config(
    apiKey: string,
    gitApiBaseUrl: string,
    gitModelName: string,
    maxChars: nat,
    commitPrompt: string,
    diffPrompt: string,
    slidesPrompt: string)

  datatype Role = System | User

  datatype ChatMessage = ChatMessage(role: Role, content: string)

  /** The JSON body `{model, max_tokens, messages}`. */
  datatype ChatRequest = ChatRequest(model: string, maxTokens: nat, messages: seq<ChatMessage>)

  /** A POST of `payload` to `url` with `Authorization: Bearer <bearer>`. */
  datatype Post = Post(url: string, bearer: string, payload: ChatRequest)

  /** What the provider does with a post: the request could not be sent, or a response arrived
      with a status code and a body. The body is `None` when it is not a chat-completion object,
      and otherwise lists, choice by choice, the content of the choice's message (`None` for a
      JSON null). */
  datatype Reply =
    | SendFailed
    | Received(status: nat, body: Option<seq<Option<string>>>)

  /** The statuses `error_for_status` turns into an error: client errors (4xx) and server errors
      (5xx). Informational and redirection codes pass like success codes. */
  function IsErrorStatus(status: nat): (b: bool)
    ensures b <==> IsClientError(status) || IsServerError(status)
    ensures b <==> status / 100 == 4 || status / 100 == 5
  {
    400 <= status < 600
  }

  /** `StatusCode::is_client_error`. */
  predicate IsClientError(status: nat)
  {
    400 <= status < 500
  }

  /** `StatusCode::is_server_error`. */
  predicate IsServerError(status: nat)
  {
    500 <= status < 600
  }
}
