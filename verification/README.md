# matrix-bot: poll cycles, client pool and chat commands in Dafny

This project models the sequential logic of a Matrix chat bot. The bot:

- forwards RSS/Atom feed entries into rooms;
- forwards Github notifications into rooms;
- is configured by chat commands.

Five parts are modelled, and properties are proved about each:

- **Feed poll cycle** (`RssInterval`). It runs once over every feed subscription.
  - A subscription whose room the bot has left is deleted.
  - Otherwise the feed is fetched, and one message is sent for each entry dated strictly after the stored watermark, in feed order.
  - The watermark then becomes the newest entry time in the whole feed. It is computed with the epoch as the fold seed, so it can move backwards.
- **Github poll cycle and client pool** (`GithubInterval`). It runs once over every Github subscription.
  - The pooled client for (room, user) is fetched or created, and given the current token.
  - A client that is still rate-limited is skipped.
  - Otherwise its notifications are requested and one message is sent per notification. The message is text in a direct room and a notice elsewhere.
  - The watermark becomes the time read just before the request.
- **Github client rate-limit state** (`GithubClient`).
  - The earliest time of the next request starts at the epoch.
  - A request is allowed only strictly after that time.
  - A readable `X-Poll-Interval` header moves it to the time of the response plus that many seconds.
  - The header is read before a `304 Not Modified` answer is turned into an empty list (sections 13.1.3 and 15.4.5 of RFC 9110).
- **Argument tokenizer** (`Arguments`). A left fold over the message split at single spaces, with one piece of state: the quote that opened the current argument. `'` and `"` can both open an argument, and only the opening quote closes it. Empty arguments are dropped, and so is the text of an argument still open at the end.
- **Subscription commands and dispatch** (`SubscriptionCommands`, `GithubCommand`, `RssCommand`, `Commands`). Each is a transition of a subscription store gated by the admin/moderator lists. The sub-commands are `list`, `clear`, `enable` and `disable`. `leave` is gated the same way, and `remind` does nothing.

Shared modules:

- `Wrappers`: `Option` and `Result`.
- `Text`: `Split` and `Join` on one character, with their round trip.
- `Seqs`: order-preserving `Filter`.
- `Time`: seconds since the epoch and the representable range.
- `Chat`: messages, and a batch of sends that stops at the first failure.
- `Database`: a collection as a sequence of documents addressed by (room, source key), with find, upsert, remove and per-room filtering.

The outside world is replaced by parameters:

- a `world` function answers, per subscription, whether the room is joined, whether a new Github client can be built, what the fetch returned, the clock readings, which send fails first and whether the store write succeeds;
- each cycle takes whether reading the subscriptions out of the store succeeded;
- the commands take whether the token or feed test succeeded, and the initial watermark of a new subscription.

Three behaviours of the cycles are worth knowing:

- the `?` operator ends the whole cycle at the first error; `ErrorAbortsRest` proves that the subscriptions after a failing one are not processed;
- the feed watermark is the newest date of the current feed, so it can move back to the epoch; `ReannouncedAfterEmptyFeed` proves that an entry is then announced again;
- the Github watermark is the clock read just before the request, as `GithubInterval.PollSubscription` states.

## Model

| member | source | states |
|---|---|---|
| Time.FromUnixTimestamp | src/intervals/rss.rs:91 | conversion back to a date-time succeeds exactly inside the representable range and keeps the second |
| Chat.Deliver | src/intervals/rss.rs:48-53 | the sends that reach the room are a prefix of the batch; the batch completes iff no send fails, otherwise exactly the messages before the first failing one are sent |
| Database.Find | src/commands/github.rs:110-112 | a lookup finds a document with the identity iff the collection holds one |
| Database.Upsert | src/intervals/rss.rs:25-26 | after `update`, the identity finds the new document, every other identity finds what it found before, identities stay unique, and the size grows only for a new identity |
| Database.Remove | src/intervals/rss.rs:27-28 | `delete` keeps exactly the documents of other identities and no lookup of another identity changes |
| Database.ForRoom | src/commands/github.rs:51-52 | `for_room` holds exactly the documents of the room |
| Database.RemoveRoom | src/commands/github.rs:72-78 | deleting every document of `for_room` keeps exactly the other rooms' documents and their lookups |
| Database.FilterUnique | src/commands/github.rs:72-78 | removing documents keeps identities unique |
| GithubClient.New | src/clients/github.rs:38-50 | a new client keeps login and token, and its next request is allowed from the Unix epoch on |
| GithubClient.SetToken | src/clients/github.rs:53-56 | only the token changes; login and rate-limit time stay |
| GithubClient.SetTokenKeepsRateLimit | src/clients/github.rs:52-56 | refreshing the token never changes whether a request is allowed |
| GithubClient.NextRequestAllowed | src/clients/github.rs:71-74 | a request is refused while the clock reads the allowed time or earlier, and allowed at every reading strictly after it |
| GithubClient.AllowedStaysAllowed | src/clients/github.rs:71-74 | a request allowed at some time is allowed at every later time |
| GithubClient.NewClientAllowed | src/clients/github.rs:72-74 | a fresh client may request at any time strictly after the epoch |
| GithubClient.ApplyPollInterval | src/clients/github.rs:92-95 | without the header nothing changes; an unreadable value, one beyond `u64`, or a deadline past the last representable second is an error; otherwise the allowed time is the response time plus the interval |
| GithubClient.Notifications | src/clients/github.rs:77-103 | an unformattable `since`, an unreachable server, an error status or a header that cannot be applied (unreadable, beyond `u64`, or overflowing the date) leave the client as it was and fail; success means the rate-limit update was applied, a 304 yields no notifications, and any other answer yields its decoded body; conversely a formattable `since`, a non-error status, an applicable header and a decoded body (or a 304) always succeed; once the header of such an answer is applied the client keeps the new rate-limit time even when the body then fails to decode |
| GithubClient.NotModifiedStillRateLimits | src/clients/github.rs:92-99 | a 304 answer carrying a poll interval both moves the allowed time and yields an empty list |
| GithubClient.PollIntervalHoldsOff | src/clients/github.rs:72-95 | after a successful request announcing n seconds at time t, a request is allowed exactly at times after t + n |
| GithubInterval.GetClient | src/intervals/github.rs:28-38 | the pool then holds the (room, user) client with the given token; an existing client keeps its login and rate-limit time; a new one is `Github::new`; no other entry changes, and the pool grows by at most one |
| GithubInterval.GetClientIdempotent | src/intervals/github.rs:28-38 | asking again for the same client with the same token changes nothing |
| GithubInterval.NotificationBodyLines | src/intervals/github.rs:86-101 | the plain-text body is exactly two lines, `{type}: {title}` and the notifications page |
| GithubInterval.NotificationHtmlMatchesBody | src/intervals/github.rs:86-101 | the HTML is the body's first line (`{type}: {title}`) in bold, followed by one link, titled "See notifications", to the page the body's second line names |
| GithubInterval.NotificationMessage | src/intervals/github.rs:74-79 | the message goes to the room, and is a text message iff the room is direct, a notice otherwise |
| GithubInterval.NotificationMessages | src/intervals/github.rs:72-83 | one message per notification, in order |
| GithubInterval.PollSubscription | src/intervals/github.rs:34-66 | an orphan is deleted without a client lookup or a send; a live room whose new client cannot be built fails with nothing changed; otherwise the room's client is pooled with the current token; a rate-limited client is skipped with nothing sent and the store as it was; otherwise the pooled client carries the response's rate-limit state, and the step succeeds exactly when the request succeeds, every notification is delivered and the store write succeeds; a failed request sends nothing, and otherwise exactly the messages up to the first failing send reach the room, even when the store write then fails; on success every notification is sent and the watermark is the time read before the request; a failure leaves the store alone; other identities keep their document and pooled client |
| GithubInterval.Fetch | src/intervals/github.rs:57-63 | the client's new rate-limit state enters the pool whatever the outcome; the step succeeds exactly when the request succeeds, every notification is delivered and the store write succeeds; a failed request sends nothing, otherwise exactly the messages up to the first failing send reach the room; on success the store write is that of the fetched notifications |
| GithubInterval.Announce | src/intervals/github.rs:60-63 | the step succeeds iff every send and the store write succeed; exactly the messages up to the first failing send reach the room, even when the store write then fails |
| GithubInterval.OrphanIsNotFetched | src/intervals/github.rs:64-66 | for a room the bot left, the outcome depends on neither the clocks nor the response |
| GithubInterval.RateLimitedIsNotFetched | src/intervals/github.rs:53-55 | a rate-limited subscription does not depend on the response |
| GithubInterval.PollIntervalSkipsNextPoll | src/intervals/github.rs:48-59 | after a poll whose response announced n seconds, a later poll of the same (room, user) within those n seconds sends nothing and keeps the store, even with a new token |
| GithubInterval.Interval | src/intervals/github.rs:42-69 | a failed read of the subscriptions ends the cycle with nothing changed; identities stay unique and no pooled client is dropped; every message renders a notification fetched for a stored subscription; after a successful cycle every subscription has the outcome `CycleOutcomePerSubscription` states |
| GithubInterval.Run | src/intervals/github.rs:46-67 | the cycle keeps identities unique and never drops a pooled client |
| GithubInterval.ErrorAbortsRest | src/intervals/github.rs:58-63 | once a subscription fails, the subscriptions after it are not processed at all |
| GithubInterval.RunAppend | src/intervals/github.rs:46-67 | without an error, the cycle over two lists is the cycle over the first followed by the cycle over the second |
| GithubInterval.CycleSendsOnlyFetchedNotifications | src/intervals/github.rs:56-60 | every message of a cycle renders a notification returned to its own subscription, in that subscription's room |
| GithubInterval.RunTouchesOnlyPending | src/intervals/github.rs:46-67 | identities no processed subscription has keep their document and their pooled client |
| GithubInterval.CycleOutcomePerSubscription | src/intervals/github.rs:46-67 | after a successful cycle every orphan is deleted, and every live subscription has its client pooled with its token; its document carries the time read before its request when the client pooled at the start of the cycle allowed a request, and is untouched when that client was still rate-limited |
| RssInterval.EffectiveTime | src/intervals/rss.rs:41-45 | an entry is dated by `published` when it has one, and otherwise by exactly its `updated`; it is undated only without both |
| RssInterval.NewEntries | src/intervals/rss.rs:40-46 | exactly the entries dated strictly after the watermark are selected |
| RssInterval.NewEntriesInFeedOrder | src/intervals/rss.rs:40-52 | selection distributes over concatenation, so entries are announced in feed order |
| RssInterval.MaxTime | src/intervals/rss.rs:85-89 | the fold is at least its seed, bounds every dated entry, and is the seed or the date of an entry |
| RssInterval.LatestTime | src/intervals/rss.rs:85-89 | the watermark is the newest date in the feed, or the epoch when nothing is newer |
| RssInterval.GetLatestEntry | src/intervals/rss.rs:84-93 | it fails exactly when the newest date is beyond the representable range |
| RssInterval.NothingNewAfterLatest | src/intervals/rss.rs:40-46 | filtering a feed against its own new watermark selects nothing |
| RssInterval.AnnouncedBoundWatermark | src/intervals/rss.rs:23-25 | every announced entry is no newer than the new watermark, which is strictly greater than the old one when anything is announced |
| RssInterval.RenderEntry | src/intervals/rss.rs:57-81 | the body is the newline-terminated lines of title, summary and link targets; the HTML is the head followed by one anchor per link |
| RssInterval.BodyHasOneLinePerPart | src/intervals/rss.rs:61-78 | splitting the body on newlines gives back one line per present title, present summary and link, in that order |
| RssInterval.AnchorOfEveryLink | src/intervals/rss.rs:71-76 | link i appears, between the links before and after it, as an anchor to its target whose text is the title if present, else the target |
| RssInterval.EntryMessage | src/intervals/rss.rs:49-50 | the message for an entry is a text message to the room carrying the rendering |
| RssInterval.EntryMessages | src/intervals/rss.rs:48-52 | one message per selected entry, in order |
| RssInterval.PollSubscription | src/intervals/rss.rs:17-30 | an orphan is deleted with nothing sent; a failed fetch sends nothing; the messages sent are a prefix of the announcements; for a fetched feed exactly the announcements up to the first failing send reach the room, even when the date conversion or the store write fails afterwards; it is handled without error exactly when every announcement is delivered, the newest date is representable and the store write succeeds, and then all announcements are sent and the feed's newest time is stored; a failure leaves the store alone |
| RssInterval.OrphanIsNotFetched | src/intervals/rss.rs:18-29 | for a room the bot left, the outcome depends neither on the feed nor on the transport |
| RssInterval.RepollSendsNothing | src/intervals/rss.rs:19-26 | polling again after a successful poll, with the same feed, sends nothing and keeps the store |
| RssInterval.ReannouncedAfterEmptyFeed | src/intervals/rss.rs:23-25 | a poll that finds no entries resets the watermark to the epoch, and the next poll announces again an entry at or before the former watermark |
| RssInterval.Interval | src/intervals/rss.rs:12-32 | a failed read of the subscriptions ends the cycle with nothing changed; identities stay unique; every message announces a new entry of a stored subscription's feed; after a successful cycle every orphan is deleted and every live subscription carries its feed's newest time |
| RssInterval.Run | src/intervals/rss.rs:17-30 | the cycle keeps identities unique |
| RssInterval.ErrorAbortsRest | src/intervals/rss.rs:19-26 | once a subscription fails, the subscriptions after it are not processed at all |
| RssInterval.RunAppend | src/intervals/rss.rs:17-30 | without an error, the cycle over two lists is the cycle over the first followed by the cycle over the second |
| RssInterval.CycleSendsOnlyNewEntries | src/intervals/rss.rs:17-30 | every message of a cycle announces an entry of its own subscription's feed |
| RssInterval.AnnouncedEntriesAreNew | src/intervals/rss.rs:40-52 | every announcement renders an entry of the feed dated strictly after the watermark |
| RssInterval.QuietCycleSendsNothing | src/intervals/rss.rs:40-52 | a cycle in which no feed has a new entry sends nothing |
| RssInterval.CycleOutcomePerSubscription | src/intervals/rss.rs:17-30 | after a successful cycle every orphan is deleted and every live subscription carries its feed's newest time |
| RssInterval.RunTouchesOnlyPending | src/intervals/rss.rs:17-30 | identities no processed subscription has keep their document |
| Arguments.ParseArguments | src/commands/mod.rs:81-120 | no argument is empty |
| Arguments.FoldOpen | src/commands/mod.rs:87-96 | while a quote is open, pieces not ending with it are collected with the separating spaces restored, and the other quote closes nothing |
| Arguments.PlainMessage | src/commands/mod.rs:112-118 | a message none of whose pieces starts with a quote yields its non-empty pieces, quotes inside pieces kept |
| Arguments.QuotedArgument | src/commands/mod.rs:86-116 | a quoted argument is collected whole, with the spaces inside it kept, runs of spaces included |
| Arguments.QuotedMessage | src/commands/mod.rs:98-107 | a message that is one quoted argument yields its inside, or nothing when that is empty |
| Arguments.ParseConcat | src/commands/mod.rs:86-118 | after a prefix that leaves no quote open, the rest is parsed on its own |
| Arguments.UnclosedQuoteDropped | src/commands/mod.rs:86-119 | the text after an opening quote that no later piece closes is not emitted, even when the quote occurs inside a piece |
| Arguments.WordAlone | src/commands/mod.rs:112-114 | a plain word is one argument |
| Arguments.RunsOfSpacesAreDropped | src/commands/tests.rs:9-10 | words separated by runs of two spaces give exactly the words |
| Arguments.WordThenQuoted | src/commands/tests.rs:12-13 | a word and a quoted argument with spaces give the word and the inside |
| Arguments.QuotedThenWord | src/commands/tests.rs:15-16 | a quoted argument holding the other quote, then a word ending in a quote, give the inside and the word |
| SubscriptionCommands.Bullets | src/commands/github.rs:53-56 | one `- {name}` line per name, in order |
| SubscriptionCommands.Labels | src/commands/github.rs:53-56 | the listed name of each subscription, in store order |
| SubscriptionCommands.ListReply | src/commands/github.rs:57-68 | plain text iff there is nothing to list, and then the fixed text |
| SubscriptionCommands.ListReplyLines | src/commands/github.rs:53-68 | the Markdown list splits on newlines into exactly one bullet per subscription |
| SubscriptionCommands.Manage | src/commands/github.rs:49-127 | `list` changes nothing; `clear` removes exactly the room's subscriptions; `enable` stores the subscription iff its test succeeded; `disable` removes the room's subscription to the source and answers "not found" iff there was none; nothing else changes and identities stay unique |
| SubscriptionCommands.EnableThenList | src/commands/github.rs:50-106 | `list` after a successful `enable` shows the new subscription |
| GithubCommand.Execute | src/commands/github.rs:41-130 | a sender who is neither admin nor moderator changes nothing and gets no reply; each sub-command has its reply, `enable` succeeds iff the token test does, `disable` succeeds iff the login is subscribed in the room, and other rooms are never touched |
| GithubCommand.ListShowsEachUser | src/commands/github.rs:50-68 | the `list` reply has one `- {user}` line per subscription of the room, in store order |
| GithubCommand.EnableThenDisableRestores | src/commands/github.rs:87-126 | `disable` after `enable` succeeds, removes the login, and restores every other lookup |
| RssCommand.Execute | src/commands/rss.rs:40-124 | a sender who is neither admin nor moderator changes nothing and gets no reply; each sub-command has its reply, `enable` succeeds iff the feed test does, `disable` succeeds iff the URL is subscribed in the room, and other rooms are never touched |
| RssCommand.EnableThenListShowsFeed | src/commands/rss.rs:49-95 | after `enable`, `list` shows the URL |
| Commands.Execute | src/commands/mod.rs:41-61 | only a moderator's `leave` leaves the room; `leave` and `remind` neither reply nor change a store; each subscription command changes its own collection only and never another room's subscriptions |

## Left out

- Scheduling (`src/intervals/mod.rs`): the timers, `select!` and the restart loop are concurrency concerns. One cycle is modelled at a time.
- The Matrix session, sync, invites and login (`src/matrix.rs`, `src/events.rs`, `src/lib.rs`, `src/main.rs`) are SDK plumbing. The room lookup, direct-room flag and sends are answers of the `world` parameter.
- HTTP, JSON and feed parsing, and RFC 2822/3339 formatting are library code. A fetch is a `FeedFetch` or a `Response` record, and dates are whole seconds. Sub-second precision is not modelled.
- The settings and the state database (`src/settings.rs`, `src/database.rs`): `database.rs` declares no collections, so `find`, `for_room`, `insert`, `update` and `delete` are reconstructed over a sequence of documents. `insert` is taken as an upsert by (room, source key). The source does not show whether `insert` of an existing identity fails, so that failure is not modelled.
- Database.ForRoom: the order of `for_room` is taken to be store order.
- Store failures inside the commands are not modelled: neither the reads (`for_room` and `find`, src/commands/github.rs:51-52, 72-74, 110-112 and src/commands/rss.rs:50-51, 71-73, 105-106) nor the writes. Failed sends of command replies are not modelled either: the commands always complete.
- `test_token` and `test_feed_url` are not modelled; their outcome is a boolean parameter of the commands. `Github::new` can fail when the HTTP client cannot be built (src/clients/github.rs:41). In the poll cycle that failure is the `clientBuilt` answer of the `world`. In the `github enable` command (src/commands/github.rs:88-89) the source does not show how `test_token` is reached from the `Result` of `Github::new`; the model chooses to fold a construction failure into the token test's boolean parameter.
- GithubClient.ApplyPollInterval: the `now + wait_duration` overflow panics in the source; the model returns the error `TimeOverflow` instead.
- GithubInterval.NotificationMessage: states the rendering by referring to `RenderNotification`, which has no contract of its own. The body's lines are stated by `NotificationBodyLines`, and the HTML in terms of those lines by `NotificationHtmlMatchesBody`, both for subject fields without newlines.
- SubscriptionCommands.Manage: the watermark of a new subscription (`GithubSubscription::new` / `RssSubscription::new` are not part of this model) is the `initial` parameter.
- The reminder job (`src/jobs/*`) is job-queue glue. `remind` is an empty stub in the source and does nothing in the model; its arguments are not validated.
- The command-line parsing of the argument list into a `Command` is clap's and is not modelled; dispatch starts from a parsed `Command`.
- Logging and tracing calls have no effect on state and are left out.
