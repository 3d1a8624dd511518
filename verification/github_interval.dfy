/** One run of the Github notification poll cycle, and the client pool it
    keeps between runs.

    For every Github subscription in the store: when the bot is no longer in
    the room the subscription is deleted; otherwise the pooled client for
    (room, user) is fetched or created and given the subscription's token,
    and unless the client is still rate-limited the notifications since the
    watermark are requested, one message is sent per notification, and the
    watermark becomes the time read just before the request. The first error
    of any step ends the whole cycle; the pool keeps whatever the cycle did
    to it up to then.

    The room lookup, the clocks, the HTTP exchange and the transport are
    replaced by a `world` that answers per subscription. */
module GithubInterval {
  import opened Wrappers
  import opened Text
  import opened Chat
  import opened Database
  import opened GithubClient
  import opened Seqs

  /** `IntervalState`: one client per (room, user), so that the rate-limit
      state survives between cycles. */
  datatype IntervalState = IntervalState(clients: map<Key, Github>)

  /** `get_client`: the pooled client for (room, user), created on first
      use, in either case carrying `token`. */
  function GetClient(state: IntervalState, room: RoomId, user: string, token: string)
    : (r: (IntervalState, Github))
    ensures (room, user) in r.0.clients && r.0.clients[(room, user)] == r.1
    ensures r.1.token == token
    ensures (room, user) in state.clients ==>
              r.1.user == state.clients[(room, user)].user
              && r.1.allowedRequestTime == state.clients[(room, user)].allowedRequestTime
    ensures (room, user) !in state.clients ==> r.1 == New(user, token)
    ensures r.0.clients.Keys == state.clients.Keys + {(room, user)}
    ensures forall k :: k in state.clients && k != (room, user) ==> r.0.clients[k] == state.clients[k]
    ensures |r.0.clients| <= |state.clients| + 1
  {
    var key := (room, user);
    var created := New(user, token);
    var client := if key in state.clients then state.clients[key] else created;
    var refreshed := SetToken(client, token);
    (IntervalState(state.clients[key := refreshed]), refreshed)
  }

  /** Asking twice for the same client with the same token changes nothing
      the second time. */
  lemma GetClientIdempotent(state: IntervalState, room: RoomId, user: string, token: string)
    ensures var once := GetClient(state, room, user, token);
            GetClient(once.0, room, user, token) == once
  {
    var once := GetClient(state, room, user, token);
    assert SetToken(once.1, token) == once.1;
    assert once.0.clients[(room, user) := once.1] == once.0.clients;
  }

  /** Where the rendered notification points. */
  const NotificationsUrl: string := "https://github.com/notifications"

  /** The first line of a rendered notification: "{type}: {title}". */
  function Headline(n: Notification): string {
    n.subject.kind + ": " + n.subject.title
  }

  /** The anchor `<a href="{href}">{text}</a>`. */
  function Link(href: string, text: string): string {
    "<a href=\"" + href + "\">" + text + "</a>"
  }

  /** `render_notification`: the HTML message and the plain-text body. */
  function RenderNotification(n: Notification): (string, string)
  {
    var html := "<b>" + Headline(n) + "</b><br>\n" + Link(NotificationsUrl, "See notifications");
    var body := Headline(n) + "\n" + NotificationsUrl;
    (html, body)
  }

  /** The body is exactly two lines: the headline and the notifications
      page. */
  lemma NotificationBodyLines(n: Notification)
    requires '\n' !in n.subject.kind && '\n' !in n.subject.title
    ensures Split(RenderNotification(n).1, '\n') == [Headline(n), NotificationsUrl]
  {
    assert '\n' !in Headline(n);
    assert '\n' !in NotificationsUrl;
    assert RenderNotification(n).1 == Join([Headline(n), NotificationsUrl], '\n');
    SplitJoin([Headline(n), NotificationsUrl], '\n');
  }

  /** The HTML and the body carry the same content: the HTML is the body's
      first line in bold, followed by a link to the page its second line
      names. */
  lemma NotificationHtmlMatchesBody(n: Notification)
    requires '\n' !in n.subject.kind && '\n' !in n.subject.title
    ensures var lines := Split(RenderNotification(n).1, '\n');
            |lines| == 2
            && RenderNotification(n).0 == "<b>" + lines[0] + "</b><br>\n" + Link(lines[1], "See notifications")
  {
    NotificationBodyLines(n);
  }

  /** The message for one notification: a text message in a direct room, a
      notice elsewhere. */
  function NotificationMessage(room: RoomId, isDirect: bool, n: Notification): (m: Message)
    ensures m.room == room
    ensures m.kind == Text <==> isDirect
    ensures (m.html, m.body) == RenderNotification(n)
  {
    var rendered := RenderNotification(n);
    Message(room, if isDirect then Text else Notice, rendered.1, rendered.0)
  }

  /** `send_notification_messages`: one message per notification, in order. */
  function NotificationMessages(room: RoomId, isDirect: bool, ns: seq<Notification>): (r: seq<Message>)
    ensures |r| == |ns|
    ensures forall i :: 0 <= i < |ns| ==> r[i] == NotificationMessage(room, isDirect, ns[i])
  {
    if |ns| == 0 then [] else [NotificationMessage(room, isDirect, ns[0])] + NotificationMessages(room, isDirect, ns[1..])
  }

  /** The world's answers for one subscription during one cycle: whether
      the room is joined and direct, whether building a new HTTP client
      succeeds (`get_client` builds one on every call), the clock when the rate limit is
      checked, when the watermark time is taken and when the response is
      read, the response, which send (if any) fails and whether the store
      write succeeds. */
  datatype Observation = Observation(
    joined: bool,
    isDirect: bool,
    clientBuilt: bool,
    checkTime: int,
    now: int,
    response: Response,
    responseTime: int,
    sendFailure: Option<nat>,
    storeOk: bool)

  datatype Error = NewClientError | ClientError(error: GithubClient.Error) | SendError | StoreError

  /** The state after (part of) a cycle: client pool, store, the messages
      that reached their rooms, and the error that ended the cycle, if any. */
  datatype Cycle = Cycle(state: IntervalState, store: seq<GithubSubscription>, sent: seq<Message>, error: Option<Error>)

  /** The pooled client of a subscription once `get_client` has run. */
  function ClientFor(state: IntervalState, sub: GithubSubscription): Github {
    GetClient(state, sub.room, sub.user, sub.token).1
  }

  /** The notifications a response can deliver. */
  function NotificationList(response: Response): seq<Notification> {
    if response.Answer? && response.body.Some? then response.body.value else []
  }

  /** The body of the loop of `interval` for one subscription. */
  function PollSubscription(state: IntervalState, store: seq<GithubSubscription>,
                            sub: GithubSubscription, obs: Observation): (r: Cycle)
    // A failed step leaves the store as it was.
    ensures r.error.Some? ==> r.store == store
    // Orphaned subscription: deleted; no client, nothing sent.
    ensures !obs.joined ==> r.state == state && r.sent == [] && (r.error.None? <==> obs.storeOk)
    ensures !obs.joined && r.error.None? ==> r.store == Remove(store, GithubKey, GithubKey(sub))
    // Live room whose client cannot be built: the cycle fails, nothing changes.
    ensures obs.joined && !obs.clientBuilt ==> r == Cycle(state, store, [], Some(NewClientError))
    // Otherwise the pool holds the subscription's client with its token.
    ensures obs.joined && obs.clientBuilt ==> GithubKey(sub) in r.state.clients
                                              && r.state.clients[GithubKey(sub)].token == sub.token
    // Rate-limited: skipped, nothing sent, no error.
    ensures obs.joined && obs.clientBuilt && !NextRequestAllowed(ClientFor(state, sub), obs.checkTime) ==>
              r.store == store && r.sent == [] && r.error.None?
              && r.state == GetClient(state, sub.room, sub.user, sub.token).0
    // Fetched: the client's rate-limit state is the response's.
    ensures obs.joined && obs.clientBuilt && NextRequestAllowed(ClientFor(state, sub), obs.checkTime) ==>
              r.state.clients[GithubKey(sub)]
              == Notifications(ClientFor(state, sub), sub.latestUpdate, obs.response, obs.responseTime).0
    // Success: every notification announced, watermark set to `now`.
    ensures obs.joined && NextRequestAllowed(ClientFor(state, sub), obs.checkTime) && r.error.None? ==>
              var fetched := Notifications(ClientFor(state, sub), sub.latestUpdate, obs.response, obs.responseTime).1;
              fetched.Ok? && r.sent == NotificationMessages(sub.room, obs.isDirect, fetched.value)
              && r.store == Upsert(store, GithubKey, sub.(latestUpdate := obs.now))
    // ... which happens exactly when the request succeeds, every notification
    // is delivered and the store write succeeds.
    ensures obs.joined && obs.clientBuilt && NextRequestAllowed(ClientFor(state, sub), obs.checkTime) ==>
              var fetched := Notifications(ClientFor(state, sub), sub.latestUpdate, obs.response, obs.responseTime).1;
              (r.error.None? <==>
                 fetched.Ok? && obs.storeOk && (obs.sendFailure.None? || obs.sendFailure.value >= |fetched.value|))
              // ... and what reaches the room is nothing after a failed request,
              // otherwise the messages up to the first failing send.
              && r.sent == if fetched.Err? then []
                           else Deliver(NotificationMessages(sub.room, obs.isDirect, fetched.value), obs.sendFailure).0
    // What is sent is a prefix of the messages for the response's notifications.
    ensures r.sent <= NotificationMessages(sub.room, obs.isDirect, NotificationList(obs.response))
    // Other identities keep their documents and their pooled clients.
    ensures forall k: Key :: k != GithubKey(sub) ==> Find(r.store, GithubKey, k) == Find(store, GithubKey, k)
    ensures forall k :: k != GithubKey(sub) ==> (k in r.state.clients <==> k in state.clients)
    ensures forall k :: k in state.clients && k != GithubKey(sub) ==> r.state.clients[k] == state.clients[k]
  {
    if !obs.joined then
      if obs.storeOk then Cycle(state, Remove(store, GithubKey, GithubKey(sub)), [], None)
      else Cycle(state, store, [], Some(StoreError))
    else if !obs.clientBuilt then Cycle(state, store, [], Some(NewClientError))
    else
      var (pooled, client) := GetClient(state, sub.room, sub.user, sub.token);
      if !NextRequestAllowed(client, obs.checkTime) then Cycle(pooled, store, [], None)
      else Fetch(pooled, store, sub, client, obs)
  }

  /** The request for a client that is not rate-limited, and what follows
      it: the client's new rate-limit state goes into the pool whatever the
      outcome. */
  function Fetch(pooled: IntervalState, store: seq<GithubSubscription>, sub: GithubSubscription,
                 client: Github, obs: Observation): (r: Cycle)
    ensures r.state == IntervalState(pooled.clients[GithubKey(sub) :=
              Notifications(client, sub.latestUpdate, obs.response, obs.responseTime).0])
    ensures r.error.Some? ==> r.store == store
    ensures r.sent <= NotificationMessages(sub.room, obs.isDirect, NotificationList(obs.response))
    ensures r.error.None? ==>
              var fetched := Notifications(client, sub.latestUpdate, obs.response, obs.responseTime).1;
              fetched.Ok? && r.sent == NotificationMessages(sub.room, obs.isDirect, fetched.value)
              && r.store == Upsert(store, GithubKey, sub.(latestUpdate := obs.now))
    // The request is handled without error exactly when it succeeds, every
    // notification is delivered and the store write succeeds.
    ensures var fetched := Notifications(client, sub.latestUpdate, obs.response, obs.responseTime).1;
            r.error.None? <==>
              fetched.Ok? && obs.storeOk && (obs.sendFailure.None? || obs.sendFailure.value >= |fetched.value|)
    // A failed request sends nothing; otherwise exactly the messages up to the
    // first failing send reach the room.
    ensures var fetched := Notifications(client, sub.latestUpdate, obs.response, obs.responseTime).1;
            r.sent == if fetched.Err? then []
                      else Deliver(NotificationMessages(sub.room, obs.isDirect, fetched.value), obs.sendFailure).0
    ensures forall k: Key :: k != GithubKey(sub) ==> Find(r.store, GithubKey, k) == Find(store, GithubKey, k)
  {
    var (updated, fetched) := Notifications(client, sub.latestUpdate, obs.response, obs.responseTime);
    var state' := IntervalState(pooled.clients[GithubKey(sub) := updated]);
    match fetched
    case Err(e) => Cycle(state', store, [], Some(ClientError(e)))
    case Ok(ns) =>
      assert ns == [] || ns == NotificationList(obs.response);
      Announce(state', store, sub, obs, ns)
  }

  /** `send_notification_messages` for fetched notifications `ns`, then the
      store write of the new watermark `obs.now`. */
  function Announce(state: IntervalState, store: seq<GithubSubscription>, sub: GithubSubscription,
                    obs: Observation, ns: seq<Notification>): (r: Cycle)
    ensures r.state == state
    ensures r.sent <= NotificationMessages(sub.room, obs.isDirect, ns)
    ensures r.error.Some? ==> r.store == store
    ensures r.error.None? ==> r.sent == NotificationMessages(sub.room, obs.isDirect, ns)
                              && r.store == Upsert(store, GithubKey, sub.(latestUpdate := obs.now))
    ensures r.error.None? <==> obs.storeOk && (obs.sendFailure.None? || obs.sendFailure.value >= |ns|)
    // Exactly the messages up to the first failing send reach the room, even
    // when the store write fails afterwards.
    ensures r.sent == Deliver(NotificationMessages(sub.room, obs.isDirect, ns), obs.sendFailure).0
    ensures forall k: Key :: k != GithubKey(sub) ==> Find(r.store, GithubKey, k) == Find(store, GithubKey, k)
  {
    var (sent, delivered) := Deliver(NotificationMessages(sub.room, obs.isDirect, ns), obs.sendFailure);
    if !delivered then Cycle(state, store, sent, Some(SendError))
    else if obs.storeOk then Cycle(state, Upsert(store, GithubKey, sub.(latestUpdate := obs.now)), sent, None)
    else Cycle(state, store, sent, Some(StoreError))
  }

  /** For an orphaned subscription no client is looked up and nothing is
      requested: the outcome depends on neither the clocks nor the response. */
  lemma OrphanIsNotFetched(state: IntervalState, store: seq<GithubSubscription>, sub: GithubSubscription,
                           obs: Observation, response: Response, checkTime: int)
    requires !obs.joined
    ensures PollSubscription(state, store, sub, obs)
            == PollSubscription(state, store, sub, obs.(response := response, checkTime := checkTime))
  {
  }

  /** A rate-limited subscription is not requested: the outcome does not
      depend on the response. */
  lemma RateLimitedIsNotFetched(state: IntervalState, store: seq<GithubSubscription>, sub: GithubSubscription,
                                obs: Observation, response: Response)
    requires obs.joined && obs.clientBuilt && !NextRequestAllowed(ClientFor(state, sub), obs.checkTime)
    ensures PollSubscription(state, store, sub, obs)
            == PollSubscription(state, store, sub, obs.(response := response))
  {
  }

  /** A poll whose response announced a poll interval of n seconds keeps
      every later poll of the same (room, user) up to n seconds after the
      response from requesting anything, even with a new token: it sends
      nothing and leaves the store alone. */
  lemma PollIntervalSkipsNextPoll(state: IntervalState, store: seq<GithubSubscription>, sub: GithubSubscription,
                                  obs: Observation, token: string, later: Observation)
    requires obs.joined && NextRequestAllowed(ClientFor(state, sub), obs.checkTime)
    requires obs.response.Answer? && obs.response.pollInterval.Some? && obs.response.pollInterval.value.Some?
    requires PollSubscription(state, store, sub, obs).error.None?
    requires later.joined && later.clientBuilt && later.checkTime <= obs.responseTime + obs.response.pollInterval.value.value
    ensures var first := PollSubscription(state, store, sub, obs);
            var second := PollSubscription(first.state, first.store, sub.(token := token), later);
            second.sent == [] && second.store == first.store && second.error.None?
  {
    var client := ClientFor(state, sub);
    var fetched := Notifications(client, sub.latestUpdate, obs.response, obs.responseTime);
    PollIntervalHoldsOff(client, sub.latestUpdate, obs.response, obs.responseTime, later.checkTime);
  }

  /** The cycle over the subscriptions still `pending`, stopping at the
      first error. */
  function Run(state: IntervalState, store: seq<GithubSubscription>, pending: seq<GithubSubscription>,
               world: GithubSubscription -> Observation): (r: Cycle)
    ensures UniqueKeys(store, GithubKey) ==> UniqueKeys(r.store, GithubKey)
    ensures state.clients.Keys <= r.state.clients.Keys
    decreases |pending|
  {
    if |pending| == 0 then Cycle(state, store, [], None)
    else
      var step := PollSubscription(state, store, pending[0], world(pending[0]));
      if step.error.Some? then step
      else
        var rest := Run(step.state, step.store, pending[1..], world);
        Cycle(rest.state, rest.store, step.sent + rest.sent, rest.error)
  }

  /** The first error ends the cycle: once the subscriptions `xs` have
      failed, the ones after them are neither requested nor touched, and
      neither are their pooled clients. */
  lemma {:induction false} ErrorAbortsRest(state: IntervalState, store: seq<GithubSubscription>,
                                         xs: seq<GithubSubscription>, ys: seq<GithubSubscription>,
                                         world: GithubSubscription -> Observation)
    requires Run(state, store, xs, world).error.Some?
    ensures Run(state, store, xs + ys, world) == Run(state, store, xs, world)
    decreases |xs|
  {
    var step := PollSubscription(state, store, xs[0], world(xs[0]));
    ConsAppend(xs, ys);
    if step.error.None? {
      var rest := Run(step.state, step.store, xs[1..], world);
      assert Run(state, store, xs, world) == Cycle(rest.state, rest.store, step.sent + rest.sent, rest.error);
      ErrorAbortsRest(step.state, step.store, xs[1..], ys, world);
      assert Run(state, store, xs + ys, world) == Cycle(rest.state, rest.store, step.sent + rest.sent, rest.error);
    }
  }

  /** Without an error, the cycle over `xs + ys` is the cycle over `xs`
      followed by the cycle over `ys` from the pool and store `xs` left. */
  lemma {:induction false} RunAppend(state: IntervalState, store: seq<GithubSubscription>,
                                   xs: seq<GithubSubscription>, ys: seq<GithubSubscription>,
                                   world: GithubSubscription -> Observation)
    requires Run(state, store, xs, world).error.None?
    ensures var first := Run(state, store, xs, world);
            var second := Run(first.state, first.store, ys, world);
            Run(state, store, xs + ys, world)
            == Cycle(second.state, second.store, first.sent + second.sent, second.error)
    decreases |xs|
  {
    if |xs| == 0 {
      assert xs + ys == ys;
    } else {
      var step := PollSubscription(state, store, xs[0], world(xs[0]));
      var rest := Run(step.state, step.store, xs[1..], world);
      var second := Run(rest.state, rest.store, ys, world);
      ConsAppend(xs, ys);
      assert step.error.None?;
      assert Run(state, store, xs, world) == Cycle(rest.state, rest.store, step.sent + rest.sent, rest.error);
      RunAppend(step.state, step.store, xs[1..], ys, world);
      assert Run(step.state, step.store, xs[1..] + ys, world)
             == Cycle(second.state, second.store, rest.sent + second.sent, second.error);
      assert Run(state, store, xs + ys, world)
             == Cycle(second.state, second.store, step.sent + (rest.sent + second.sent), second.error);
      AppendAssoc(step.sent, rest.sent, second.sent);
    }
  }

  /** `interval`: one cycle over every subscription in the store. `listed`
      is whether reading the subscriptions out of the store succeeded; when
      it fails the cycle ends before any client is looked up. */
  function Interval(state: IntervalState, store: seq<GithubSubscription>, listed: bool,
                    world: GithubSubscription -> Observation): (r: Cycle)
    ensures !listed ==> r == Cycle(state, store, [], Some(StoreError))
    ensures UniqueKeys(store, GithubKey) ==> UniqueKeys(r.store, GithubKey)
    ensures state.clients.Keys <= r.state.clients.Keys
    // Every message renders a notification fetched for a stored subscription.
    ensures forall m :: m in r.sent ==> exists s :: s in store && Announces(s, world(s), m)
    // After a successful cycle every subscription has its `Outcome`.
    ensures UniqueKeys(store, GithubKey) && r.error.None? ==>
              forall i :: 0 <= i < |store| ==> Outcome(r, state, store, store[i], world(store[i]))
  {
    if !listed then Cycle(state, store, [], Some(StoreError))
    else
      CycleSendsOnlyFetchedNotifications(state, store, store, world);
      StoreOutcome(state, store, world);
      Run(state, store, store, world)
  }

  /** `CycleOutcomePerSubscription` for the cycle over the whole store. */
  lemma StoreOutcome(state: IntervalState, store: seq<GithubSubscription>, world: GithubSubscription -> Observation)
    ensures UniqueKeys(store, GithubKey) && Run(state, store, store, world).error.None? ==>
              forall i :: 0 <= i < |store| ==> Outcome(Run(state, store, store, world), state, store, store[i], world(store[i]))
  {
    if UniqueKeys(store, GithubKey) && Run(state, store, store, world).error.None? {
      CycleOutcomePerSubscription(state, store, store, world);
    }
  }

  /** Message `m` announces a notification fetched for subscription `sub`. */
  predicate Announces(sub: GithubSubscription, obs: Observation, m: Message) {
    exists n :: n in NotificationList(obs.response) && m == NotificationMessage(sub.room, obs.isDirect, n)
  }

  /** Every message a cycle sends renders a notification from the response
      to its own subscription, into that subscription's room. */
  lemma {:induction false} CycleSendsOnlyFetchedNotifications(
    state: IntervalState, store: seq<GithubSubscription>, pending: seq<GithubSubscription>,
    world: GithubSubscription -> Observation)
    ensures forall m :: m in Run(state, store, pending, world).sent ==>
              exists s :: s in pending && Announces(s, world(s), m)
    decreases |pending|
  {
    if |pending| > 0 {
      var s := pending[0];
      var step := PollSubscription(state, store, s, world(s));
      forall m | m in step.sent
        ensures Announces(s, world(s), m)
      {
        StepSendsFetched(state, store, s, world(s), m);
      }
      if step.error.None? {
        var rest := Run(step.state, step.store, pending[1..], world);
        CycleSendsOnlyFetchedNotifications(step.state, step.store, pending[1..], world);
        forall m | m in Run(state, store, pending, world).sent
          ensures exists s' :: s' in pending && Announces(s', world(s'), m)
        {
          assert Run(state, store, pending, world).sent == step.sent + rest.sent;
          if m in step.sent {
            assert Announces(s, world(s), m);
          } else {
            assert m in rest.sent;
            var s' :| s' in pending[1..] && Announces(s', world(s'), m);
            assert s' in pending;
          }
        }
      }
    }
  }

  lemma StepSendsFetched(state: IntervalState, store: seq<GithubSubscription>, sub: GithubSubscription,
                         obs: Observation, m: Message)
    requires m in PollSubscription(state, store, sub, obs).sent
    ensures Announces(sub, obs, m)
  {
    var ns := NotificationList(obs.response);
    var all := NotificationMessages(sub.room, obs.isDirect, ns);
    var sent := PollSubscription(state, store, sub, obs).sent;
    assert sent <= all;
    var i :| 0 <= i < |sent| && sent[i] == m;
    assert all[i] == m;
    assert ns[i] in ns;
  }

  /** Pool entries of identities no pending subscription has are never
      touched by the cycle; neither are their store documents. */
  lemma {:induction false} RunTouchesOnlyPending(state: IntervalState, store: seq<GithubSubscription>,
                                               pending: seq<GithubSubscription>,
                                               world: GithubSubscription -> Observation, k: Key)
    requires forall i :: 0 <= i < |pending| ==> GithubKey(pending[i]) != k
    ensures Find(Run(state, store, pending, world).store, GithubKey, k) == Find(store, GithubKey, k)
    ensures k in state.clients ==> Run(state, store, pending, world).state.clients[k] == state.clients[k]
    ensures k !in state.clients ==> k !in Run(state, store, pending, world).state.clients
    decreases |pending|
  {
    if |pending| > 0 {
      var step := PollSubscription(state, store, pending[0], world(pending[0]));
      assert GithubKey(pending[0]) != k;
      if step.error.None? {
        var rest := pending[1..];
        forall i | 0 <= i < |rest|
          ensures GithubKey(rest[i]) != k
        {
          assert rest[i] == pending[i + 1];
        }
        RunTouchesOnlyPending(step.state, step.store, rest, world, k);
      }
    }
  }

  /** What a successful cycle leaves behind for subscription `sub`, seen
      from the pool `initial` and the store `before` it: an orphan has been
      deleted; a live one has its client pooled with its current token, and
      its document carries the time read before its request as watermark
      when the pooled client allowed a request, and is untouched when the
      client was still rate-limited. */
  predicate Outcome(r: Cycle, initial: IntervalState, before: seq<GithubSubscription>,
                    sub: GithubSubscription, obs: Observation) {
    var key := GithubKey(sub);
    (!obs.joined ==> Find(r.store, GithubKey, key).None?)
    && (obs.joined ==>
          key in r.state.clients && r.state.clients[key].token == sub.token
          && if NextRequestAllowed(ClientFor(initial, sub), obs.checkTime)
             then Find(r.store, GithubKey, key) == Some(sub.(latestUpdate := obs.now))
             else Find(r.store, GithubKey, key) == Find(before, GithubKey, key))
  }

  /** After a successful cycle over subscriptions with distinct identities,
      every one of them has the outcome `Outcome` describes. */
  lemma CycleOutcomePerSubscription(
    state: IntervalState, store: seq<GithubSubscription>, pending: seq<GithubSubscription>,
    world: GithubSubscription -> Observation)
    requires UniqueKeys(pending, GithubKey)
    requires Run(state, store, pending, world).error.None?
    ensures forall i :: 0 <= i < |pending| ==>
              Outcome(Run(state, store, pending, world), state, store, pending[i], world(pending[i]))
  {
    forall i | 0 <= i < |pending|
      ensures Outcome(Run(state, store, pending, world), state, store, pending[i], world(pending[i]))
    {
      CycleOutcomeAt(state, store, pending, world, i);
    }
  }

  lemma {:induction false} CycleOutcomeAt(
    state: IntervalState, store: seq<GithubSubscription>, pending: seq<GithubSubscription>,
    world: GithubSubscription -> Observation, i: nat)
    requires UniqueKeys(pending, GithubKey)
    requires Run(state, store, pending, world).error.None?
    requires i < |pending|
    ensures Outcome(Run(state, store, pending, world), state, store, pending[i], world(pending[i]))
    decreases i
  {
    var s := pending[0];
    var step := PollSubscription(state, store, s, world(s));
    var rest := pending[1..];
    var r := Run(step.state, step.store, rest, world);
    assert Run(state, store, pending, world) == Cycle(r.state, r.store, step.sent + r.sent, r.error);
    if i == 0 {
      forall j | 0 <= j < |rest|
        ensures GithubKey(rest[j]) != GithubKey(s)
      {
        assert rest[j] == pending[j + 1];
      }
      StepOutcome(state, store, s, world(s));
      RunTouchesOnlyPending(step.state, step.store, rest, world, GithubKey(s));
      OutcomeCarried(step, r, state, store, s, world(s));
    } else {
      assert rest[i - 1] == pending[i];
      assert GithubKey(pending[i]) != GithubKey(s);
      CycleOutcomeAt(step.state, step.store, rest, world, i - 1);
      StepKeepsOtherClients(state, store, s, world(s), pending[i]);
      OutcomeRebase(r, step.state, state, step.store, store, pending[i], world(pending[i]));
    }
  }

  /** An outcome survives later steps that leave the subscription's
      document and pooled client alone. */
  lemma OutcomeCarried(step: Cycle, r: Cycle, initial: IntervalState, before: seq<GithubSubscription>,
                       sub: GithubSubscription, obs: Observation)
    requires Outcome(step, initial, before, sub, obs)
    requires Find(r.store, GithubKey, GithubKey(sub)) == Find(step.store, GithubKey, GithubKey(sub))
    requires GithubKey(sub) in step.state.clients ==>
               GithubKey(sub) in r.state.clients && r.state.clients[GithubKey(sub)] == step.state.clients[GithubKey(sub)]
    ensures Outcome(r, initial, before, sub, obs)
  {
  }

  /** An outcome relative to an intermediate pool and store is one relative
      to an earlier pool and store that had the same client and document for
      the subscription. */
  lemma OutcomeRebase(r: Cycle, middlePool: IntervalState, initial: IntervalState,
                      middle: seq<GithubSubscription>, before: seq<GithubSubscription>,
                      sub: GithubSubscription, obs: Observation)
    requires Outcome(r, middlePool, middle, sub, obs)
    requires ClientFor(middlePool, sub) == ClientFor(initial, sub)
    requires Find(middle, GithubKey, GithubKey(sub)) == Find(before, GithubKey, GithubKey(sub))
    ensures Outcome(r, initial, before, sub, obs)
  {
  }

  /** A step leaves the client every other identity would get from the pool
      as it was. */
  lemma StepKeepsOtherClients(state: IntervalState, store: seq<GithubSubscription>, sub: GithubSubscription,
                              obs: Observation, other: GithubSubscription)
    requires GithubKey(other) != GithubKey(sub)
    ensures ClientFor(PollSubscription(state, store, sub, obs).state, other) == ClientFor(state, other)
  {
    var key := GithubKey(other);
    var after := PollSubscription(state, store, sub, obs).state;
    assert key in after.clients <==> key in state.clients;
    if key in state.clients {
      assert after.clients[key] == state.clients[key];
    }
  }

  /** One successful step already has the outcome for its subscription. */
  lemma StepOutcome(state: IntervalState, store: seq<GithubSubscription>, sub: GithubSubscription, obs: Observation)
    requires PollSubscription(state, store, sub, obs).error.None?
    ensures Outcome(PollSubscription(state, store, sub, obs), state, store, sub, obs)
  {
  }
}
