/** The rows the poll works on, as the hosted backend returns them.

    Timestamps (`created_at`, the deadline, the clock) are integer
    milliseconds since the epoch; the source parses them from date strings.
    Optional text columns are `Option<string>`; JavaScript treats both a
    missing value and the empty string as falsy, which `Truthy` captures. */
module PollTypes {

  datatype Option<+T> = None | Some(value: T) {
    /** `x || d` on a value that is either present or missing */
    function GetOr(default: T): T {
      match this
      case Some(v) => v
      case None => default
    }
  }

  /** A proposed meetup place: a row of the `poll_options` table. */
  datatype PollOption = PollOption(
    id: string,
    name: string,
    location: string,
    mapUrl: Option<string>,
    createdBy: string,
    createdAt: int,
    voteCount: int      // server-maintained cache, advisory only
  )

  /** A row of the `votes` table. `userEmail` and `userName` are written when
      voting although the declared row type omits them. */
  datatype Vote = Vote(
    id: string,
    optionId: string,
    userId: string,
    userEmail: Option<string>,
    userName: Option<string>,
    createdAt: int
  )

  /** The signed-in user as the identity provider reports it. */
  datatype User = User(
    id: string,
    email: Option<string>,
    fullName: Option<string>,   // user_metadata.full_name
    name: Option<string>        // user_metadata.name
  )

  /** JavaScript truthiness of an optional string: present and non-empty. */
  predicate Truthy(s: Option<string>) {
    s.Some? && s.value != ""
  }
}
