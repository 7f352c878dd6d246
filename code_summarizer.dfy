/** `generate_slide_summary`: one system message with the slides prompt, then one user message per
    document in the order given, posted to the bare base address; the first choice's content is
    returned as it is. */
module CodeSummarizer {
  import opened Errors
  import opened Chat
  import CommitMessage

  /** One user message per document, in order. */
  function UserMessages(files: seq<string>): (r: seq<ChatMessage>)
    ensures |r| == |files|
    ensures forall i :: 0 <= i < |files| ==> r[i] == ChatMessage(User, files[i])
    decreases |files|
  {
    if files == [] then [] else [ChatMessage(User, files[0])] + UserMessages(files[1..])
  }

  /** The message list: the system message first, then the documents. */
  function SummaryMessages(prompt: string, files: seq<string>): (r: seq<ChatMessage>)
    ensures |r| == 1 + |files| && r[0] == ChatMessage(System, prompt)
    ensures forall i :: 0 <= i < |files| ==> r[i + 1] == ChatMessage(User, files[i])
  {
    [ChatMessage(System, prompt)] + UserMessages(files)
  }

  /** The list built as the source builds it: pushed onto, one document at a time. */
  method BuildSummaryMessages(prompt: string, files: seq<string>) returns (messages: seq<ChatMessage>)
    ensures messages == SummaryMessages(prompt, files)
  {
    messages := [ChatMessage(System, prompt)];
    for i := 0 to |files|
      invariant |messages| == i + 1 && messages[0] == ChatMessage(System, prompt)
      invariant forall k :: 0 <= k < i ==> messages[k + 1] == ChatMessage(User, files[k])
    {
      messages := messages + [ChatMessage(User, files[i])];
    }
  }

  function SummaryRequest(cfg: Config, files: seq<string>): (req: ChatRequest)
    ensures req.model == cfg.gitModelName && req.maxTokens == cfg.maxChars
    ensures req.messages == SummaryMessages(cfg.slidesPrompt, files)
  {
    ChatRequest(cfg.gitModelName, cfg.maxChars, SummaryMessages(cfg.slidesPrompt, files))
  }

  /** The post goes to the base address itself, with no path added. */
  function SummaryPost(cfg: Config, files: seq<string>): (p: Post)
    ensures p.url == cfg.gitApiBaseUrl && p.bearer == cfg.apiKey && p.payload == SummaryRequest(cfg, files)
  {
    Post(cfg.gitApiBaseUrl, cfg.apiKey, SummaryRequest(cfg, files))
  }

  /** The summary's response type requires every choice to carry string content. */
  predicate AllContent(choices: seq<Option<string>>)
  {
    forall i :: 0 <= i < |choices| ==> choices[i].Some?
  }

  /** The source takes the first choice with `unwrap`: a reply that deserializes must carry at
      least one choice. */
  predicate ChoicesPresent(reply: Reply)
  {
    reply.Received? && reply.body.Some? && AllContent(reply.body.value) ==> |reply.body.value| > 0
  }

  /** The reply turned into the summary. The status code is not looked at; a body that is not a
      list of choices with content is a decoding error; otherwise the first content, untouched. */
  function SummaryFromReply(reply: Reply): (r: Result<string>)
    requires ChoicesPresent(reply)
    ensures reply.SendFailed? ==> r == Err(TransportFailed)
    ensures r.Ok? <==> reply.Received? && reply.body.Some? && AllContent(reply.body.value)
    ensures r.Ok? ==> r.value == reply.body.value[0].value
    ensures r.Err? && reply.Received? ==> r == Err(BodyDecodeFailed)
  {
    match reply
    case SendFailed => Err(TransportFailed)
    case Received(_, body) =>
      if body.None? || !AllContent(body.value) then Err(BodyDecodeFailed)
      else Ok(body.value[0].value)
  }

  /** The whole step: build the messages, post them, and read the reply. */
  method GenerateSlideSummary(cfg: Config, files: seq<string>, provider: Post -> Reply) returns (r: Result<string>)
    requires ChoicesPresent(provider(SummaryPost(cfg, files)))
    ensures r == SummaryFromReply(provider(SummaryPost(cfg, files)))
  {
    var messages := BuildSummaryMessages(cfg.slidesPrompt, files);
    var payload := ChatRequest(cfg.gitModelName, cfg.maxChars, messages);
    var reply := provider(Post(cfg.gitApiBaseUrl, cfg.apiKey, payload));
    r := SummaryFromReply(reply);
  }

  // ---------------------------------------------------------------------------------------------
  // Properties

  /** The contents of a message list. */
  function Contents(ms: seq<ChatMessage>): (r: seq<string>)
    ensures |r| == |ms| && forall i :: 0 <= i < |ms| ==> r[i] == ms[i].content
    decreases |ms|
  {
    if ms == [] then [] else [ms[0].content] + Contents(ms[1..])
  }

  /** The documents come back out of the list unchanged and in order, after the prompt. */
  lemma {:induction false} ContentsRoundTrip(prompt: string, files: seq<string>)
    ensures Contents(SummaryMessages(prompt, files)) == [prompt] + files
  {
    var c := Contents(SummaryMessages(prompt, files));
    forall i | 0 <= i < |files|
      ensures c[i + 1] == files[i]
    {
    }
  }

  /** Adding documents adds their messages at the end. */
  lemma {:induction false} MoreDocuments(prompt: string, a: seq<string>, b: seq<string>)
    ensures SummaryMessages(prompt, a + b) == SummaryMessages(prompt, a) + UserMessages(b)
  {
    var l := SummaryMessages(prompt, a + b);
    var r := SummaryMessages(prompt, a) + UserMessages(b);
    forall i | 0 <= i < |l|
      ensures l[i] == r[i]
    {
      if 0 < i <= |a| {
        assert (a + b)[i - 1] == a[i - 1];
      } else if i > |a| {
        assert (a + b)[i - 1] == b[i - 1 - |a|];
      }
    }
  }

  /** With no documents only the system message is sent. */
  lemma NoDocuments(prompt: string)
    ensures SummaryMessages(prompt, []) == [ChatMessage(System, prompt)]
  {
  }

  /** The status code does not change the result. */
  lemma {:induction false} StatusIgnored(s1: nat, s2: nat, body: Option<seq<Option<string>>>)
    requires ChoicesPresent(Received(s1, body))
    ensures ChoicesPresent(Received(s2, body))
    ensures SummaryFromReply(Received(s1, body)) == SummaryFromReply(Received(s2, body))
  {
  }

  /** The first content is returned even when it is blank or spans several lines: nothing is
      post-processed. */
  lemma {:induction false} ContentUntouched(status: nat, c: string, rest: seq<string>)
    ensures SummaryFromReply(Received(status, Some([Some(c)] + Wrap(rest)))) == Ok(c)
  {
    var cs := [Some(c)] + Wrap(rest);
    assert AllContent(cs) by {
      forall i | 0 < i < |cs|
        ensures cs[i].Some?
      {
        assert cs[i] == Wrap(rest)[i - 1];
      }
    }
  }

  function Wrap(xs: seq<string>): (r: seq<Option<string>>)
    ensures |r| == |xs| && forall i :: 0 <= i < |xs| ==> r[i] == Some(xs[i])
    decreases |xs|
  {
    if xs == [] then [] else [Some(xs[0])] + Wrap(xs[1..])
  }

  /** Unlike the commit message, the summary is not refused on a server error: the same reply
      with status 500 fails one and succeeds for the other. */
  lemma ServerErrorAsymmetry(c: string)
    ensures SummaryFromReply(Received(500, Some([Some(c)]))) == Ok(c)
    ensures CommitMessage.CommitFromReplyAsWritten(Received(500, Some([Some(c)]))) == Err(HttpStatus(500))
  {
    assert AllContent([Some(c)]);
  }

  /** The two requests go to different addresses: the commit request adds a path. */
  lemma {:induction false} DifferentEndpoints(cfg: Config, files: seq<string>, diff: string)
    ensures SummaryPost(cfg, files).url != CommitMessage.CommitPost(cfg, diff).url
    ensures CommitMessage.CommitPost(cfg, diff).url == SummaryPost(cfg, files).url + "/chat/completions"
  {
    assert |CommitMessage.CommitPost(cfg, diff).url| == |cfg.gitApiBaseUrl| + 17;
  }
}
