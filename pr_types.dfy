/** The records and the error type that the pull-request code passes between
    its stages (src/gitpr.rs:15-41). */
module PrTypes {

  /** `PrError`: every failure is tagged with its kind and keeps its message. */
  datatype PrError =
    | Api(apiMessage: string)
    | Repo(repoMessage: string)
    | De(decodeMessage: string)
    | Io(ioMessage: string)
    | Other(otherMessage: string)

  /** `Result<T, PrError>` */
  datatype Result<T> = Ok(value: T) | Err(error: PrError)

  datatype Option<T> = None | Some(value: T)

  /** `PullRequestMsg`: the title and description the user wrote. */
  datatype PullRequestMsg = PullRequestMsg(title: string, body: string)

  /** `PullRequest`: the branch to merge into, the branch to merge, the message. */
  datatype PullRequest = PullRequest(targetBranch: string, headBranch: string, message: PullRequestMsg)

  /** `RepoData`: owner and name of the repository on the forge. */
  datatype RepoData = RepoData(author: string, repoName: string)

  /** What reading a file gave: its text, or the I/O error's description. */
  datatype ReadResult = Read(contents: string) | ReadFailed(cause: string)
}
