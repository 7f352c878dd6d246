/** Failure values shared by the commit-message pipeline and the slide summarizer. */
module Errors {

  datatype Option<+T> = None | Some(value: T)

  /** The error kinds the pipeline can end with, one per distinct context message of the source. */
  datatype Error =
    | GitNotInstalled              // `which("git")` failed
    | ExecutionFailed              // the git process could not be spawned or awaited
    | CommandFailed(stderr: string) // git exited unsuccessfully; carries its standard error text
    | DecodeFailed                 // git's standard output was not valid UTF-8
    | NotARepository(cause: Error) // the repository probe failed
    | NoStagedChanges              // the trimmed staged diff is empty
    | TransportFailed              // the HTTP request could not be sent
    | HttpStatus(code: nat)        // the provider answered with a client or server error status
    | ParseFailed                  // the response body did not deserialize (commit request)
    | BodyDecodeFailed             // the response body did not deserialize (summary request)
    | NoCommitMessages             // no first candidate, or it has no content
    | PostProcessingFailed         // the reply has no line the sanitizer accepts

  /** The message a user sees for each error: the outermost context of the error chain, or, for
      the errors raised by the HTTP library, the start of that library's message. */
  function Message(e: Error): (m: string)
    ensures e.CommandFailed? ==> m == e.stderr
    ensures !e.CommandFailed? ==> m != []
  {
    match e
    case GitNotInstalled => "Git may not be installed."
    case ExecutionFailed => "Failed to execute Git command."
    case CommandFailed(stderr) => stderr
    case DecodeFailed => "Failed to decode output of the Git command."
    case NotARepository(_) => "The current directory is not a Git respository."
    case NoStagedChanges => "There are no staged changes to commit."
    case TransportFailed => "Failed to send the request to the API provider"
    case HttpStatus(code) => if code < 500 then "HTTP status client error" else "HTTP status server error"
    case ParseFailed => "Failed to parse the response from the API provider"
    case BodyDecodeFailed => "error decoding response body"
    case NoCommitMessages => "No commit messages generated"
    case PostProcessingFailed => "Failed to post-process the generated commit message"
  }

  datatype Result<+T> = Ok(value: T) | Err(error: Error) {
    predicate IsFailure() { Err? }

    function PropagateFailure<U>(): Result<U>
      requires Err?
    {
      Err(error)
    }

    function Extract(): T
      requires Ok?
    {
      value
    }
  }
}
