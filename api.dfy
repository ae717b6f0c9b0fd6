/**
 * The records that the dashboard exchanges with the admin relay, and the outcomes of
 * its two network calls. Only the outcome of a call matters to the page, so each call
 * is represented by what it resolved with or the fact that it threw.
 */
module Api {
  import opened Wrappers

  /** A user row as the upstream service reports it; any field but the id may be missing. */
  datatype User = User(
    userId: int,
    name: Option<string>,
    username: Option<string>,
    tokens: Option<int>,
    accountCount: Option<int>)

  /** What `fetchUsers()` settled with: the payload's `users` field, or a thrown error. */
  datatype FetchResult =
    | Fetched(users: Option<seq<User>>)
    | FetchFailed(error: string)

  /** What `addTokens(...)` settled with: the payload's success flag and message, or a thrown error. */
  datatype TopupReply =
    | Replied(success: bool, message: Option<string>)
    | TopupFailed(error: string)

  /** The arguments of one `onSubmit(userId, amount, reason)` call; an amount of `None` is NaN. */
  datatype TopupCall = TopupCall(userId: int, amount: Option<int>, reason: string)

  /** How the promise returned by `onSubmit` settled. */
  datatype Settlement = Resolved | Rejected(message: string)
}
