/** `generate_commit_message`: the request built from the configuration and the staged diff, the
    checks on the provider's answer, the choice of the first candidate, and the post-processing.
    The provider is a function from the post to its reply. */
module CommitMessage {
  import opened Errors
  import opened Text
  import opened Chat
  import opened Template
  import opened PostProcess

  /** The chat-completions endpoint under the configured base address: the base address, then
      the path `/chat/completions`. */
  function CommitEndpoint(cfg: Config): (url: string)
    ensures |url| == |cfg.gitApiBaseUrl| + |"/chat/completions"|
    ensures url[..|cfg.gitApiBaseUrl|] == cfg.gitApiBaseUrl
    ensures url[|cfg.gitApiBaseUrl|..] == "/chat/completions"
  {
    cfg.gitApiBaseUrl + "/chat/completions"
  }

  /** The payload: the commit prompt as the system message, then the diff prompt with its markers
      replaced by the diff as the user message. */
  function CommitRequest(cfg: Config, diff: string): (req: ChatRequest)
    ensures req.model == cfg.gitModelName && req.maxTokens == cfg.maxChars
    ensures |req.messages| == 2
    ensures req.messages[0] == ChatMessage(System, cfg.commitPrompt)
    ensures req.messages[1] == ChatMessage(User, Join(Pieces(cfg.diffPrompt), diff))
  {
    ReplaceIsJoin(cfg.diffPrompt, diff);
    ChatRequest(cfg.gitModelName, cfg.maxChars,
                [ChatMessage(System, cfg.commitPrompt), ChatMessage(User, Replace(cfg.diffPrompt, diff))])
  }

  /** The post: to the chat-completions endpoint, authorised by the API key, carrying the
      commit request. */
  function CommitPost(cfg: Config, diff: string): (p: Post)
    ensures p.url == CommitEndpoint(cfg) && p.bearer == cfg.apiKey && p.payload == CommitRequest(cfg, diff)
  {
    Post(CommitEndpoint(cfg), cfg.apiKey, CommitRequest(cfg, diff))
  }

  /** Only the first candidate is consulted; it must exist and have content. */
  function FirstCandidate(choices: seq<Option<string>>): (r: Result<string>)
    ensures r.Ok? <==> |choices| > 0 && choices[0].Some?
    ensures r.Ok? ==> r.value == choices[0].value
    ensures r.Err? ==> r.error == NoCommitMessages
  {
    if |choices| == 0 || choices[0].None? then Err(NoCommitMessages) else Ok(choices[0].value)
  }

  /** The reply up to the raw content of the first candidate: a send failure, an error status,
      a body that is not a list of candidates and a missing first content are errors, in that
      order. */
  function CandidateContent(reply: Reply): (r: Result<string>)
    ensures reply.SendFailed? ==> r == Err(TransportFailed)
    ensures reply.Received? && IsErrorStatus(reply.status) ==> r == Err(HttpStatus(reply.status))
    ensures reply.Received? && !IsErrorStatus(reply.status) && reply.body.None? ==> r == Err(ParseFailed)
    ensures reply.Received? && !IsErrorStatus(reply.status) && reply.body.Some? ==>
              r == FirstCandidate(reply.body.value)
  {
    match reply
    case SendFailed => Err(TransportFailed)
    case Received(status, body) =>
      if IsErrorStatus(status) then Err(HttpStatus(status))
      else if body.None? then Err(ParseFailed)
      else FirstCandidate(body.value)
  }

  /** The reply turned into the commit message as the source does it: the first candidate's
      content, post-processed by the expression as written. A success is a non-empty piece of a
      single line. */
  function CommitFromReplyAsWritten(reply: Reply): (r: Result<string>)
    ensures reply.SendFailed? ==> r == Err(TransportFailed)
    ensures reply.Received? && IsErrorStatus(reply.status) ==> r == Err(HttpStatus(reply.status))
    ensures reply.Received? && !IsErrorStatus(reply.status) && reply.body.None? ==> r == Err(ParseFailed)
    ensures CandidateContent(reply).Err? ==> r == CandidateContent(reply)
    ensures CandidateContent(reply).Ok? ==> r == SanitizeAsWritten(CandidateContent(reply).value)
    ensures r.Ok? ==> r.value != [] && forall k :: 0 <= k < |r.value| ==> r.value[k] != '\n'
  {
    var content :- CandidateContent(reply);
    SanitizeAsWritten(content)
  }

  /** The reply turned into the commit message with the corrected post-processing, which also
      refuses a blank capture. A success is a single line with a visible character. */
  function CommitFromReplyCorrected(reply: Reply): (r: Result<string>)
    ensures reply.SendFailed? ==> r == Err(TransportFailed)
    ensures reply.Received? && IsErrorStatus(reply.status) ==> r == Err(HttpStatus(reply.status))
    ensures reply.Received? && !IsErrorStatus(reply.status) && reply.body.None? ==> r == Err(ParseFailed)
    ensures CandidateContent(reply).Err? ==> r == CandidateContent(reply)
    ensures CandidateContent(reply).Ok? ==> r == Sanitize(CandidateContent(reply).value)
    ensures r.Ok? ==> !IsBlank(r.value) && forall k :: 0 <= k < |r.value| ==> r.value[k] != '\n'
  {
    var content :- CandidateContent(reply);
    Sanitize(content)
  }

  /** The whole step as the source does it: post the request built from `cfg` and `diff`, and
      read the reply. */
  function GenerateCommitMessageAsWritten(cfg: Config, diff: string, provider: Post -> Reply): (r: Result<string>)
    ensures r == CommitFromReplyAsWritten(provider(CommitPost(cfg, diff)))
    ensures r.Ok? ==> r.value != [] && forall k :: 0 <= k < |r.value| ==> r.value[k] != '\n'
  {
    CommitFromReplyAsWritten(provider(CommitPost(cfg, diff)))
  }

  /** The whole step with the corrected post-processing. */
  function GenerateCommitMessageCorrected(cfg: Config, diff: string, provider: Post -> Reply): (r: Result<string>)
    ensures r == CommitFromReplyCorrected(provider(CommitPost(cfg, diff)))
    ensures r.Ok? ==> !IsBlank(r.value) && forall k :: 0 <= k < |r.value| ==> r.value[k] != '\n'
  {
    CommitFromReplyCorrected(provider(CommitPost(cfg, diff)))
  }

  // ---------------------------------------------------------------------------------------------
  // Properties

  /** The message comes from the first candidate alone: later candidates are never read. */
  lemma {:induction false} OnlyFirstCandidate(status: nat, c: Option<string>, rest1: seq<Option<string>>, rest2: seq<Option<string>>)
    ensures CommitFromReplyAsWritten(Received(status, Some([c] + rest1)))
         == CommitFromReplyAsWritten(Received(status, Some([c] + rest2)))
  {
    assert ([c] + rest1)[0] == c == ([c] + rest2)[0];
  }

  /** An empty candidate list, or a first candidate without content, is "No commit messages
      generated", even when a later candidate has content. */
  lemma {:induction false} MissingFirstCandidate(status: nat, choices: seq<Option<string>>)
    requires !IsErrorStatus(status)
    requires |choices| == 0 || choices[0].None?
    ensures CommitFromReplyAsWritten(Received(status, Some(choices))) == Err(NoCommitMessages)
    ensures Message(CommitFromReplyAsWritten(Received(status, Some(choices))).error) == "No commit messages generated"
  {
  }

  /** With an accepted status and a first candidate `c`, the message is `c` post-processed. */
  lemma {:induction false} FirstCandidateSanitized(status: nat, c: string, rest: seq<Option<string>>)
    requires !IsErrorStatus(status)
    ensures CommitFromReplyAsWritten(Received(status, Some([Some(c)] + rest))) == SanitizeAsWritten(c)
    ensures CommitFromReplyCorrected(Received(status, Some([Some(c)] + rest))) == Sanitize(c)
  {
    assert ([Some(c)] + rest)[0] == Some(c);
  }

  /** The corrected pipeline differs from the source only by refusing a blank message: where it
      succeeds the source gives the same message, where the source fails it fails the same way,
      and a visible message of the source is kept. */
  lemma {:induction false} CorrectedAgrees(reply: Reply)
    ensures CommitFromReplyCorrected(reply).Ok? ==> CommitFromReplyCorrected(reply) == CommitFromReplyAsWritten(reply)
    ensures CommitFromReplyAsWritten(reply).Err? ==> CommitFromReplyCorrected(reply) == CommitFromReplyAsWritten(reply)
    ensures CommitFromReplyAsWritten(reply).Ok? && !IsBlank(CommitFromReplyAsWritten(reply).value) ==>
              CommitFromReplyCorrected(reply) == CommitFromReplyAsWritten(reply)
    ensures CommitFromReplyAsWritten(reply).Ok? && IsBlank(CommitFromReplyAsWritten(reply).value) ==>
              CommitFromReplyCorrected(reply) == Err(PostProcessingFailed)
  {
    if CandidateContent(reply).Ok? {
      var c := CandidateContent(reply).value;
      assert CommitFromReplyAsWritten(reply) == SanitizeAsWritten(c);
      assert CommitFromReplyCorrected(reply) == Sanitize(c);
    }
  }

  lemma SubjectLine(t: string)
    requires t == "`fix: x`\n"
    ensures FirstLine(TrimStart(t)) == "`fix: x`"
  {
    assert TrimStart(t) == t;
    LineEndAt(t, 0, 8);
  }

  /** A reply whose first visible line is the subject, wrapped in backticks, gives the subject. */
  lemma QuotedSubject()
    ensures Sanitize("`fix: x`\n") == Ok("fix: x")
    ensures SanitizeAsWritten("`fix: x`\n") == Ok("fix: x")
  {
    var m := "fix: x";
    SubjectLine("`fix: x`\n");
    TrimmedAlready("`fix: x`");
    TrimmedAlready(m);
    assert "`fix: x`" == ['`'] + m + ['`'];
    SanitizeQuotedLine("`fix: x`\n", m);
  }

  lemma PlainSubjectLine(t: string)
    requires t == "Add retry logic\n\nThis also fixes flakiness."
    ensures FirstLine(t) == "Add retry logic"
  {
    LineEndAt(t, 0, 15);
    assert t[..15] == "Add retry logic";
  }

  lemma PlainSubjectTrimmed(t: string)
    requires t == "Add retry logic\n\nThis also fixes flakiness."
    ensures !IsBlank(t) && TrimStart(t) == t && t[0] != '`'
    ensures Trim(FirstLine(TrimStart(t))) == "Add retry logic"
  {
    assert !IsSpace(t[0]);
    PlainSubjectLine(t);
    TrimmedAlready("Add retry logic");
  }

  /** A plain first line is the subject; the explanation after the blank line is dropped. */
  lemma PlainSubject()
    ensures Sanitize("Add retry logic\n\nThis also fixes flakiness.") == Ok("Add retry logic")
    ensures SanitizeAsWritten("Add retry logic\n\nThis also fixes flakiness.") == Ok("Add retry logic")
  {
    var t := "Add retry logic\n\nThis also fixes flakiness.";
    PlainSubjectTrimmed(t);
    SanitizePlainLine(t);
  }

  /** With a diff prompt holding one marker, the user message is the prompt around the diff. */
  lemma {:induction false} PromptAroundDiff(cfg: Config, diff: string, pre: string, suf: string)
    requires cfg.diffPrompt == pre + Marker + suf && !HasMarker(pre) && !HasMarker(suf)
    ensures CommitRequest(cfg, diff).messages[1].content == pre + diff + suf
  {
    SingleMarker(pre, suf, diff);
    ReplaceIsJoin(cfg.diffPrompt, diff);
  }

  /** The prompt "Diff:\n{}" puts the diff after its first line. */
  lemma DiffAfterPrompt(cfg: Config, diff: string)
    requires cfg.diffPrompt == "Diff:\n{}"
    ensures CommitRequest(cfg, diff).messages[1].content == "Diff:\n" + diff
  {
    var pre := "Diff:\n";
    assert !HasMarker(pre) by {
      forall i | 0 <= i < |pre|
        ensures !MarkerAt(pre, i)
      {
      }
    }
    assert cfg.diffPrompt == pre + Marker + [];
    PromptAroundDiff(cfg, diff, pre, []);
    assert pre + diff + [] == pre + diff;
  }
}
