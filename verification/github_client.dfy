/** The Github notifications API client and its rate-limit state.

    The client remembers the earliest time at which the next request is
    allowed. It starts at the Unix epoch and is moved forward by the
    `X-Poll-Interval` header of a notifications response. The HTTP exchange
    is abstracted into a `Response` record: the request is a conditional GET
    carrying `If-Modified-Since` (section 13.1.3 of RFC 9110), and a
    `304 Not Modified` answer (section 15.4.5 of RFC 9110) means "no new
    notifications". Times are whole seconds since the Unix epoch. */
module GithubClient {
  import opened Wrappers
  import opened Time

  /** Header values are parsed as `u64` seconds. */
  const U64Limit: int := 0x1_0000_0000_0000_0000

  /** Status code of a `304 Not Modified` answer. */
  const NotModified: nat := 304

  /** A client for one Github login. Only the state the bot's logic reads is
      kept: the login, its API token and the rate-limit time. */
  datatype Github = Github(user: string, token: string, allowedRequestTime: int)

  /** The part of a notification's subject that is rendered into messages. */
  datatype Subject = Subject(title: string, kind: string)

  /** One notification thread as returned by the API. */
  datatype Notification = Notification(id: string, subject: Subject, unread: bool, updatedAt: int)

  /** The outcome of the notifications request.

      `pollInterval` is the `X-Poll-Interval` header: `None` when absent,
      `Some(None)` when present but not readable as an unsigned number, and
      `Some(Some(n))` when it reads as the number n. `body` is the JSON body
      decoded as a list of notifications, `None` when decoding fails. */
  datatype Response =
    | Unreachable
    | Answer(status: nat, pollInterval: Option<Option<nat>>, body: Option<seq<Notification>>)

  datatype Error =
    | UnformattableSince
    | RequestFailed
    | ErrorStatus(status: nat)
    | InvalidPollInterval
    | TimeOverflow
    | InvalidBody

  /** `Github::new`: a client whose first request is allowed at once. */
  function New(username: string, token: string): (c: Github)
    ensures c.user == username && c.token == token
    ensures c.allowedRequestTime == UnixEpoch
  {
    Github(username, token, UnixEpoch)
  }

  /** `set_token`: only the token changes. */
  function SetToken(c: Github, token: string): (r: Github)
    ensures r.token == token
    ensures r.user == c.user && r.allowedRequestTime == c.allowedRequestTime
  {
    c.(token := token)
  }

  /** `next_request_allowed`: the allowed time lies strictly in the past. */
  function NextRequestAllowed(c: Github, now: int): (r: bool)
    // The allowed time itself is still too early ...
    ensures now <= c.allowedRequestTime ==> !r
    // ... and every later reading of the clock is late enough.
    ensures now > c.allowedRequestTime ==> r
  {
    c.allowedRequestTime < now
  }

  /** Waiting never takes a permission away: a request allowed at `now` is
      allowed at every later time. */
  lemma AllowedStaysAllowed(c: Github, now: int, later: int)
    requires NextRequestAllowed(c, now) && now <= later
    ensures NextRequestAllowed(c, later)
  {
  }

  /** `error_for_status`: client and server error codes. */
  predicate IsErrorStatus(status: nat) {
    400 <= status <= 599
  }

  /** `since` can be written both as an RFC 2822 and an RFC 3339 date. */
  predicate SinceFormattable(since: int) {
    MinRfc2822Timestamp <= since <= MaxTimestamp
  }

  /** The rate-limit update of a response read at time `now`: a readable
      `X-Poll-Interval` of n seconds forbids requests until `now + n`. The
      addition is the one place the date-time type can overflow. */
  function ApplyPollInterval(c: Github, pollInterval: Option<Option<nat>>, now: int): (r: Result<Github, Error>)
    ensures r.Ok? ==> r.value.user == c.user && r.value.token == c.token
    ensures pollInterval.None? ==> r == Ok(c)
    ensures r.Err? <==> pollInterval.Some? && (pollInterval.value.None? || pollInterval.value.value >= U64Limit || now + pollInterval.value.value > MaxTimestamp)
    ensures r.Ok? && pollInterval.Some? ==> r.value.allowedRequestTime == now + pollInterval.value.value
  {
    match pollInterval
    case None => Ok(c)
    case Some(None) => Err(InvalidPollInterval)
    case Some(Some(n)) =>
      if n >= U64Limit then Err(InvalidPollInterval)
      else if now + n > MaxTimestamp then Err(TimeOverflow)
      else Ok(c.(allowedRequestTime := now + n))
  }

  /** `notifications(since)`: the notifications newer than `since`, and the
      client with its rate-limit time brought up to date. `now` is the time
      at which the response headers are read. */
  function Notifications(c: Github, since: int, response: Response, now: int)
    : (r: (Github, Result<seq<Notification>, Error>))
    // Only the rate-limit time can change.
    ensures r.0.user == c.user && r.0.token == c.token
    // It changes only to the deadline a readable header announces.
    ensures r.0 == c || (response.Answer? && response.pollInterval.Some?
                         && response.pollInterval.value.Some?
                         && r.0.allowedRequestTime == now + response.pollInterval.value.value)
    // Rejected requests and unreadable headers leave the client untouched.
    ensures !SinceFormattable(since) ==> r == (c, Err(UnformattableSince))
    ensures response.Unreachable? && SinceFormattable(since) ==> r == (c, Err(RequestFailed))
    ensures response.Answer? && IsErrorStatus(response.status) && SinceFormattable(since)
            ==> r == (c, Err(ErrorStatus(response.status)))
    ensures response.Answer? && response.pollInterval == Some(None) ==> r.1.Err? && r.0 == c
    // Success: an answer that is neither an error nor an unreadable header.
    ensures r.1.Ok? ==> SinceFormattable(since) && response.Answer? && !IsErrorStatus(response.status)
                        && ApplyPollInterval(c, response.pollInterval, now) == Ok(r.0)
    // ... and every such answer succeeds once its header is applied and,
    // unless it is a 304, its body decodes.
    ensures (SinceFormattable(since) && response.Answer? && !IsErrorStatus(response.status)
             && ApplyPollInterval(c, response.pollInterval, now).Ok?
             && (response.status == NotModified || response.body.Some?)) ==> r.1.Ok?
    // Once the header of a usable answer has been applied, the client keeps
    // the new rate-limit time whatever happens to the body.
    ensures SinceFormattable(since) && response.Answer? && !IsErrorStatus(response.status)
            && ApplyPollInterval(c, response.pollInterval, now).Ok?
            ==> r.0 == ApplyPollInterval(c, response.pollInterval, now).value
    // A header that cannot be applied fails the request and leaves the
    // client as it was.
    ensures SinceFormattable(since) && response.Answer? && !IsErrorStatus(response.status)
            && ApplyPollInterval(c, response.pollInterval, now).Err?
            ==> r == (c, Err(ApplyPollInterval(c, response.pollInterval, now).error))
    ensures r.1.Ok? && response.status == NotModified ==> r.1.value == []
    ensures r.1.Ok? && response.status != NotModified ==> response.body == Some(r.1.value)
  {
    if !SinceFormattable(since) then (c, Err(UnformattableSince))
    else match response
      case Unreachable => (c, Err(RequestFailed))
      case Answer(status, pollInterval, body) =>
        if IsErrorStatus(status) then (c, Err(ErrorStatus(status)))
        else match ApplyPollInterval(c, pollInterval, now)
          case Err(e) => (c, Err(e))
          case Ok(updated) =>
            if status == NotModified then (updated, Ok([]))
            else match body
              case None => (updated, Err(InvalidBody))
              case Some(entries) => (updated, Ok(entries))
  }

  /** The rate-limit header is read before the status is checked for 304:
      a `Not Modified` answer with a poll interval both moves the allowed
      time and yields no notifications. */
  lemma NotModifiedStillRateLimits(c: Github, since: int, n: nat, now: int)
    requires SinceFormattable(since)
    requires n < U64Limit && now + n <= MaxTimestamp
    ensures Notifications(c, since, Answer(NotModified, Some(Some(n)), None), now)
            == (c.(allowedRequestTime := now + n), Ok([]))
  {
  }

  /** After a successful request that announced a poll interval of n seconds
      at time `now`, the client refuses requests exactly up to and including
      `now + n`. */
  lemma PollIntervalHoldsOff(c: Github, since: int, response: Response, now: int, t: int)
    requires response.Answer? && response.pollInterval.Some? && response.pollInterval.value.Some?
    requires Notifications(c, since, response, now).1.Ok?
    ensures NextRequestAllowed(Notifications(c, since, response, now).0, t)
            <==> t > now + response.pollInterval.value.value
  {
  }

  /** Refreshing the token never changes whether a request is allowed. */
  lemma SetTokenKeepsRateLimit(c: Github, token: string, t: int)
    ensures NextRequestAllowed(SetToken(c, token), t) <==> NextRequestAllowed(c, t)
  {
  }

  /** A fresh client may send its first request at any time after the epoch. */
  lemma NewClientAllowed(username: string, token: string, t: int)
    ensures NextRequestAllowed(New(username, token), t) <==> t > UnixEpoch
  {
  }
}
