/**
 * The error kinds the core raises: the tidy exception classes, plus the
 * Python built-in exceptions the core lets escape or catches
 * (AttributeError on an undeclared commit field or a value of the wrong
 * shape, KeyError on a missing key, TypeError when group keys cannot be
 * ordered or a value cannot be iterated).
 */
module Errors {

  /** Why a user schema entry was refused; `index` is the entry's position in the user schema. */
  datatype SchemaFault =
    | MissingLabel(index: nat)
    | MultilineNotAllowed(index: nat)

  datatype Error =
    | SchemaError(fault: SchemaFault)
    | CommitParseError
    | GithubConfigurationError
    | GithubPullRequestAPIError
    | NoGithubPullRequestFoundError
    | MultipleGithubPullRequestsFoundError
    | NoSquashableCommitsError
    | ValidationError(field: string)
    | AttributeError(name: string)
    | KeyError(key: string)
    | TypeError
}
