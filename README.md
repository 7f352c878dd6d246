# Commit-message and slide-summary request shaping, in Dafny

This project models the logic inside `automated-committing-machine`, a command-line tool that
drafts a git commit message from the staged diff with a hosted chat-completion model. It also
models the tool's slide summarizer, which sends a list of document texts to the same kind of
endpoint. The modelled parts are:

- `run_git_command`, which turns what a `git` process did into a result. The `git_checks` probe,
  `git_diff` and `git_commit` are built on it (`git.dfy`, module `Git`).
- The diff prompt's `{}` substitution, which is `str::replace` (`template.dfy`, module `Template`).
- The commit request: the payload, the endpoint and the checks on the reply. Only the first
  candidate is taken (`commit_message.dfy`, module `CommitMessage`).
- The post-processing of the model's reply, which applies the multi-line regular expression
  `^\s*(?:`\s*(.+?)\s*`|(.+?))\s*$` (`post_process.dfy`, module `PostProcess`). The expression
  is modelled as the backtracking search a leftmost-first engine does for this one pattern. A
  greedy `\s*` gives characters back one at a time, a lazy `.+?` grows, and the backtick
  alternative is tried first. The dot stops at a line feed, `\s` may cross line feeds, and the
  search starts at the first line start where a match exists. The lemmas then state what this
  search returns in terms of trimming and first lines.
- `generate_slide_summary`: the message list is built by pushing onto a vector in a loop, which
  is modelled as a method with a loop. The module also models the bare endpoint and how the
  first choice is read (`code_summarizer.dfy`, module `CodeSummarizer`).

Shared pieces:

- `text.dfy`: Unicode whitespace, which Rust's `trim` and `\s` share, plus trimming and line
  ends.
- `errors.dfy`: the error kinds and the message each one shows.
- `chat.dfy`: the configuration, the chat request and the provider's reply, all as values.

The outside world enters as parameters. A `git` run is a function from the argument list to the
process outcome: the spawn failed, or the process exited with a success flag, its stdout and its
stderr. Because the outcome depends on the argument list, every statement says which command
ran. The provider is a function from the post (URL, bearer key, payload) to the reply: the send
failed, or a status code and a parsed body came back.

Points where the code behaves differently from what its own comments or a casual reading
suggest:

- The comment at `src/git.rs:119` and `src/git.rs:173` says post-processing keeps only the first
  line and removes surrounding backticks. The expression also accepts a reply made only of spaces
  or tabs, and a reply whose first visible line is a backtick, only whitespace and a backtick,
  even when a real subject line follows. The message is then a single whitespace character (see
  Findings). The model keeps
  the behaviour as written (`CommitMessage.CommitFromReplyAsWritten`) and a corrected pipeline
  that refuses such a message (`CommitMessage.CommitFromReplyCorrected`).
- `replace` substitutes every `{}` of the diff prompt, not only the first.
- In the summarizer, `unwrap` panics on an empty choice list, so the model makes a non-empty
  list a precondition.
- The summarizer never checks the HTTP status, so a reply with an error status whose body parses
  is still read. Its `content` field is a plain string, so a `null` content is a decoding error.

## Model

| member | source | states |
|---|---|---|
| Git.RunGitCommand | src/git.rs:39-53 | the result is Ok exactly when git exited successfully with valid UTF-8 stdout, and then it is that stdout; an unsuccessful exit gives an error carrying the stderr text; a spawn failure and undecodable stdout give their own errors |
| Git.FailureShowsStderr | src/git.rs:46-50 | a non-success exit status yields an error whose message is exactly the process's stderr text |
| Git.GitChecks | src/git.rs:64-72 | the checks pass exactly when git is on the path and `rev-parse --is-inside-work-tree` succeeds; a failing probe is reported as "not a repository" wrapping the probe's own error |
| Git.GitDiff | src/git.rs:92-113 | command errors pass through unchanged; the result is "There are no staged changes to commit." exactly when the diff output is whitespace only; otherwise it is the trimmed output, non-empty |
| Git.DiffIsTrimmed | src/git.rs:103-112 | a returned diff is its own trim and holds a non-whitespace character |
| Git.DiffReadsOnlyDiffCommand | src/git.rs:93-102 | the diff depends only on the outcome of `--no-pager diff --staged --minimal --no-color --no-ext-diff -- :!*.lock` |
| Git.GitCommit | src/git.rs:74-81 | succeeds exactly when `git commit -m <message>` succeeds, and returns its stdout trimmed; errors pass through |
| Git.CommitReadsOnlyCommitCommand | src/git.rs:74-78 | the commit result depends only on the run with arguments exactly `["commit", "-m", message]`, whatever the message holds |
| Text.Trim | src/git.rs:104 | `trim` is empty exactly when the text is all whitespace, and otherwise starts and ends with a non-whitespace character |
| Text.TrimBounds | src/git.rs:104 | the trimmed text is the slice of the input between a whitespace-only prefix and a whitespace-only suffix |
| Text.TrimIdempotent | src/git.rs:77 | trimming twice is trimming once |
| Template.ReplaceIsJoin | src/git.rs:145 | replacing `{}` by the diff equals splitting the template at its markers, left to right without overlap, and joining the pieces with the diff |
| Template.PiecesHaveNoMarker | src/git.rs:145 | every `{}` of the template is used as a separator: no piece between markers holds one |
| Template.PiecesRoundTrip | src/git.rs:145 | joining the pieces with `{}` gives the template back |
| Template.NoMarkerUnchanged | src/git.rs:145 | a template without `{}` is left unchanged |
| Template.ReplaceAppend | src/git.rs:145 | replacement distributes over a concatenation that does not split a `{}` in two |
| Template.SingleMarker | src/git.rs:145 | a template `pre ++ "{}" ++ suf` with no other marker becomes `pre ++ diff ++ suf` |
| CommitMessage.CommitEndpoint | src/git.rs:153 | the commit URL is the configured base address followed by exactly `/chat/completions` |
| CommitMessage.CommitPost | src/git.rs:152-155 | the post goes to that endpoint, with the API key as bearer token, carrying the commit request |
| CommitMessage.CommitRequest | src/git.rs:136-150 | the payload has model `git_model_name`, max tokens `max_chars` and exactly two messages: system with `commit_prompt`, then user with the diff prompt's pieces joined by the diff |
| CommitMessage.PromptAroundDiff | src/git.rs:145 | with a diff prompt holding one marker, the user message is the text before it, the diff, and the text after it |
| CommitMessage.DiffAfterPrompt | src/git.rs:145 | the diff prompt `"Diff:\n{}"` gives the user message `"Diff:\n"` followed by the diff |
| CommitMessage.FirstCandidate | src/git.rs:164-171 | Ok exactly when there is a first choice and it has content, and then it is that content; otherwise "No commit messages generated" |
| CommitMessage.CandidateContent | src/git.rs:152-171 | a send failure, a 4xx/5xx status, an unparsable body and a missing first content each give their own error, in that order; otherwise the first candidate's content |
| CommitMessage.CommitFromReplyAsWritten | src/git.rs:152-185 | errors before the content pass through; otherwise the content is post-processed by the expression as written, and a success is a non-empty piece of a single line |
| CommitMessage.GenerateCommitMessageAsWritten | src/git.rs:131-186 | the message is read, as written, from the provider's reply to the post built from the configuration and the diff; a success is a non-empty single line |
| CommitMessage.CommitFromReplyCorrected | src/git.rs:152-185 | the same pipeline with the corrected post-processing: same errors before the content, and a success is a single line with a non-whitespace character |
| CommitMessage.GenerateCommitMessageCorrected | src/git.rs:131-186 | the whole step with the corrected post-processing; a success is a single non-blank line |
| CommitMessage.CorrectedAgrees | src/git.rs:174-185 | the corrected pipeline gives the source's result except that a blank message becomes "Failed to post-process the generated commit message" |
| CommitMessage.OnlyFirstCandidate | src/git.rs:164-166 | candidates after the first never change the result |
| CommitMessage.MissingFirstCandidate | src/git.rs:164-171 | an empty choice list, or a first choice without content, is the error "No commit messages generated", even when later choices have content |
| CommitMessage.FirstCandidateSanitized | src/git.rs:164-185 | with an accepted status, the result is the first candidate's content post-processed (as written, and corrected, respectively) |
| CommitMessage.QuotedSubject | src/git.rs:174-183 | the reply "`fix: x`\n" gives "fix: x" |
| CommitMessage.PlainSubject | src/git.rs:174-183 | the reply "Add retry logic\n\nThis also fixes flakiness." gives "Add retry logic" |
| PostProcess.SanitizeAsWritten | src/git.rs:174-183 | the regex capture as written: a success is a non-empty slice of the reply lying within one line; a failed match is "Failed to post-process the generated commit message" |
| PostProcess.MatchesIff | src/git.rs:174-176 | as written, the expression matches exactly when the reply holds a character other than a line feed |
| PostProcess.PlainLine | src/git.rs:174-183 | as written, when the first line with a non-whitespace character does not start with a backtick, the result is that line trimmed; later lines are ignored |
| PostProcess.QuotedLine | src/git.rs:174-180 | as written, when that first line, trimmed, is a backtick, non-blank text and a backtick, the result is the text between the backticks, trimmed |
| PostProcess.UnclosedBacktickLine | src/git.rs:174-183 | as written, a first visible line that opens with a backtick but, trimmed, does not end with one, with no backtick after it, gives that line trimmed, backtick included |
| PostProcess.BacktickInsideLine | src/git.rs:174-183 | as written, the reply "`foo` bar" gives "`foo` bar" |
| PostProcess.BlankReplyMatches | src/git.rs:174-183 | as written, a whitespace-only reply with a character other than a line feed is accepted, and the message is whitespace |
| PostProcess.BlankReplyAccepted | src/git.rs:174-183 | as written, the reply of three spaces gives the one-space message |
| PostProcess.BlankInsideBackticks | src/git.rs:174-183 | as written, a first visible line that, trimmed, is a backtick, non-empty whitespace and a backtick gives the last of that whitespace as the message, whatever lines without a backtick follow |
| PostProcess.BlankBetweenBackticks | src/git.rs:174-183 | as written, ``"` `"`` gives `" "` through group 1, and so does ``"`  `\nfix: x"`` although a subject line follows |
| PostProcess.LoneBackticks | src/git.rs:174-183 | a lone backtick, and two backticks with nothing between them, are taken as they are by group 2 |
| PostProcess.Sanitize | src/git.rs:174-183 | the post-processing with blank captures refused: a success is a single line with a non-whitespace character and agrees with the as-written capture, and every non-blank as-written capture is kept |
| PostProcess.SanitizeRejectsBlank | src/git.rs:174-183 | a reply with no non-whitespace character fails post-processing |
| PostProcess.SanitizeRejectsBlankInsideBackticks | src/git.rs:174-183 | corrected, a first visible line of backtick, whitespace, backtick fails post-processing instead of giving a whitespace message |
| PostProcess.SanitizePlainLine | src/git.rs:174-183 | the first line with a non-whitespace character, when it does not start with a backtick, is the message, trimmed |
| PostProcess.SanitizeUnclosedBacktickLine | src/git.rs:174-183 | the corrected version also keeps a first line that opens with a backtick it does not close, trimmed |
| PostProcess.SanitizeQuotedLine | src/git.rs:174-180 | a first such line of the form backtick, non-blank text, backtick gives that text trimmed |
| Chat.IsErrorStatus | src/git.rs:159 | `error_for_status` rejects exactly the client-error and server-error statuses, the codes 4xx and 5xx |
| Errors.Message | src/git.rs:44-176 | the error text shown for each failure: a failed git command shows its stderr verbatim, and every error raised in the core shows its fixed non-empty context string ("Failed to execute Git command.", "There are no staged changes to commit.", "No commit messages generated", "Failed to post-process the generated commit message", and the rest); an error of the HTTP library shows the fixed start of that library's message |
| CodeSummarizer.UserMessages | src/img_handler/code_summarizer.rs:47-55 | one user message per document, with the document as its content, in input order |
| CodeSummarizer.SummaryMessages | src/img_handler/code_summarizer.rs:38-55 | 1 + n messages: the system message with `slides_prompt` first, then user message i+1 holding document i |
| CodeSummarizer.BuildSummaryMessages | src/img_handler/code_summarizer.rs:38-55 | the list the push loop builds equals that message list |
| CodeSummarizer.SummaryRequest | src/img_handler/code_summarizer.rs:57-62 | the payload has model `git_model_name`, max tokens `max_chars` and that message list |
| CodeSummarizer.SummaryPost | src/img_handler/code_summarizer.rs:64-67 | the summary post goes to the configured base address itself, with the API key as bearer token, carrying the summary request |
| CodeSummarizer.ContentsRoundTrip | src/img_handler/code_summarizer.rs:38-55 | the message contents are the prompt followed by the documents, unchanged and in order |
| CodeSummarizer.MoreDocuments | src/img_handler/code_summarizer.rs:47-55 | appending documents appends their user messages at the end |
| CodeSummarizer.NoDocuments | src/img_handler/code_summarizer.rs:38-55 | an empty document list gives only the system message |
| CodeSummarizer.DifferentEndpoints | src/img_handler/code_summarizer.rs:65 | the summary is posted to the bare base URL, while the commit request (src/git.rs:153) adds `/chat/completions` |
| CodeSummarizer.SummaryFromReply | src/img_handler/code_summarizer.rs:72-80 | a reply with a choice list whose every content is a string gives the first content unchanged; any other received body is a decoding error; the status is not consulted |
| CodeSummarizer.GenerateSlideSummary | src/img_handler/code_summarizer.rs:32-87 | builds the list, posts it to the base URL and reads the reply; a parsed reply with no choice is excluded by the precondition, as `unwrap` panics there |
| CodeSummarizer.StatusIgnored | src/img_handler/code_summarizer.rs:64-74 | the status code never changes the summary result |
| CodeSummarizer.ContentUntouched | src/img_handler/code_summarizer.rs:72-86 | the first content is returned as it is, blank or multi-line, with no trimming or line extraction |
| CodeSummarizer.ServerErrorAsymmetry | src/img_handler/code_summarizer.rs:64-74 | the same reply with status 500 fails the commit request but gives the summary |

## Left out

- Process spawning and the `which("git")` probe: OS I/O. Their outcomes are parameters: a function from arguments to the process outcome, and a flag for "git is on the path".
- UTF-8 decoding: `from_utf8` failing is a `None` stdout, and `from_utf8_lossy` is taken as already applied to stderr.
- HTTP transport, bearer authentication and `error_for_status`: network I/O. The reply is a parameter. `error_for_status` is modelled by the status range 400-599 it rejects.
- JSON (de)serialisation and the `async_openai` builders: foreign library code. A body is either unparsable or a list of optional contents. The commit path decodes the body as `async_openai`'s response, whose content is optional, and the summary path as `SlideResponse`, whose content is a plain string; the model keeps one parse outcome for both, so a body that decodes for one path and not the other is not represented. The `.build()?` failures of the message and payload builders are not modelled, because nothing in the core decides them.
- `Regex::new(...)?`: a fixed, valid pattern, which never fails. The `get(1).or(get(2))` error cannot happen after a match, since exactly one of the two groups takes part in it.
- `edit_commit_message`: an interactive terminal widget; its one rule, a non-empty answer, lives in the widget's validator.
- async/await and tokio: nothing in the core is concurrent, so the model is sequential.
- `println!` of the summary, configuration loading, and unused imports: no logic to state.
- Errors.Message: an error raised by the HTTP library (a failed send, an error status from `error_for_status`, an undecodable summary body) is shown by the fixed start of that library's message. The status text, the URL and the underlying cause that the library appends are not modelled, because their wording belongs to the library, not to the core.
- Unicode whitespace is the White_Space property, which both `trim` and the regex class `\s` use. Only line feed ends a line, as in the regex's default multi-line mode.
- PostProcess.QuotedLine: stated only for backticks around non-blank text. The other backtick lemmas cover backticks around non-empty whitespace (`PostProcess.BlankInsideBackticks`) and a line that opens with a backtick it does not close (`PostProcess.UnclosedBacktickLine`), each when no backtick follows that line, and the replies "`" and "``" alone (`PostProcess.LoneBackticks`). A first line "``" or a lone backtick followed by more text is not stated in general. A backtick later in the reply can close the backtick alternative across line feeds (a backtick, a line feed, text, a closing backtick). The matcher follows those replies, but no lemma states their result.
- PostProcess.PlainLine: stated only for a first visible line that does not start with a backtick. `PostProcess.UnclosedBacktickLine` states the same result for one that does, under the condition of the line above.

## Findings

| source | as written | input that shows it | evidently intended | confidence | as-written member | corrected member |
|---|---|---|---|---|---|---|
| src/git.rs:174-183 | a reply made only of spaces or tabs matches the expression: the lazy group 2 captures one whitespace character, which becomes the commit message | the reply `"   "` gives the message `" "` | a reply with no visible character fails with "Failed to post-process the generated commit message", as for an empty reply | not executed; derived from the pattern's semantics | PostProcess.BlankReplyAccepted | PostProcess.SanitizeRejectsBlank |
| src/git.rs:174-183 | a first visible line made of a backtick, whitespace and a backtick matches through group 1, which captures one whitespace character, whatever lines without a backtick follow it (`PostProcess.BlankInsideBackticks` states it for all such replies) | the reply ``"`  `\nfix: x"`` gives the message `" "` | a blank capture is refused: such a reply fails post-processing like a blank one, and the message is never whitespace | not executed; derived from the pattern's semantics | PostProcess.BlankBetweenBackticks | PostProcess.SanitizeRejectsBlankInsideBackticks |

`CommitMessage.CommitFromReplyAsWritten` and `CommitMessage.GenerateCommitMessageAsWritten`
use `PostProcess.SanitizeAsWritten`, which keeps the expression exactly as the source writes it.
`CommitMessage.CommitFromReplyCorrected` and `CommitMessage.GenerateCommitMessageCorrected` use
the corrected `PostProcess.Sanitize`. `CommitMessage.CorrectedAgrees` proves that the two
differ only on a blank message.
