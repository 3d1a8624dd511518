/** One run of the feed poll cycle.

    For every feed subscription in the store: when the bot is no longer in
    the subscription's room the subscription is deleted and nothing is
    fetched; otherwise the feed is fetched and parsed, one message is sent
    for each entry newer than the stored watermark, and the watermark is set
    to the newest entry time found anywhere in the feed. The first error of
    any step ends the whole cycle.

    Network, feed parsing and the chat transport are replaced by a `world`
    that answers, per subscription, whether the room is joined, what the
    fetch produced, which send (if any) fails and whether the store write
    succeeds. */
module RssInterval {
  import opened Wrappers
  import opened Text
  import opened Seqs
  import opened Time
  import opened Chat
  import opened Database

  /** A link of a feed entry. */
  datatype Link = Link(href: string, title: Option<string>)

  /** A parsed feed entry; `published` and `updated` are whole seconds. */
  datatype Entry = Entry(
    title: Option<string>,
    summary: Option<string>,
    links: seq<Link>,
    published: Option<int>,
    updated: Option<int>)

  /** The date an entry is judged by: `published`, or else `updated`. */
  function EffectiveTime(e: Entry): (r: Option<int>)
    ensures r.Some? <==> e.published.Some? || e.updated.Some?
    ensures e.published.Some? ==> r == e.published
    ensures e.published.None? ==> r == e.updated
  {
    e.published.Or(e.updated)
  }

  /** An entry is new when it is dated strictly after the watermark; an
      undated entry is never new. */
  predicate IsNew(e: Entry, latestUpdate: int) {
    EffectiveTime(e).Some? && EffectiveTime(e).value > latestUpdate
  }

  /** The entries `send_feed_messages` announces, in feed order. */
  function NewEntries(entries: seq<Entry>, latestUpdate: int): (r: seq<Entry>)
    ensures forall e :: e in r <==> e in entries && IsNew(e, latestUpdate)
  {
    Filter(entries, (e: Entry) => IsNew(e, latestUpdate))
  }

  /** The selection of a concatenated feed is the concatenation of the
      selections: entries are announced in the order the feed lists them. */
  lemma NewEntriesInFeedOrder(xs: seq<Entry>, ys: seq<Entry>, latestUpdate: int)
    ensures NewEntries(xs + ys, latestUpdate) == NewEntries(xs, latestUpdate) + NewEntries(ys, latestUpdate)
  {
    FilterAppend(xs, ys, (e: Entry) => IsNew(e, latestUpdate));
  }

  /** The fold of `get_latest_entry`, continued from `maximum`. */
  function MaxTime(maximum: int, entries: seq<Entry>): (r: int)
    ensures r >= maximum
    ensures forall e :: e in entries && EffectiveTime(e).Some? ==> EffectiveTime(e).value <= r
    ensures r == maximum || exists e :: e in entries && EffectiveTime(e) == Some(r)
    decreases |entries|
  {
    if |entries| == 0 then maximum
    else
      var next := match EffectiveTime(entries[0])
        case Some(t) => if t > maximum then t else maximum
        case None => maximum;
      var r := MaxTime(next, entries[1..]);
      assert forall e :: e in entries ==> e == entries[0] || e in entries[1..];
      assert r == next || exists e :: e in entries[1..] && EffectiveTime(e) == Some(r);
      r
  }

  /** The newest effective time in the whole feed, with 0 as the fold seed:
      a feed with no dated entry yields the epoch. */
  function LatestTime(entries: seq<Entry>): (r: int)
    ensures r >= UnixEpoch
    ensures forall e :: e in entries && EffectiveTime(e).Some? ==> EffectiveTime(e).value <= r
    ensures r == UnixEpoch || exists e :: e in entries && EffectiveTime(e) == Some(r)
  {
    MaxTime(UnixEpoch, entries)
  }

  /** `get_latest_entry`: the newest time, converted back into a date-time,
      which fails beyond the representable range. */
  function GetLatestEntry(entries: seq<Entry>): (r: Result<int, ()>)
    ensures r.Ok? <==> LatestTime(entries) <= MaxTimestamp
    ensures r.Ok? ==> r.value == LatestTime(entries)
  {
    FromUnixTimestamp(LatestTime(entries))
  }

  /** Re-filtering a feed against the watermark computed from it selects
      nothing. */
  lemma NothingNewAfterLatest(entries: seq<Entry>)
    ensures NewEntries(entries, LatestTime(entries)) == []
  {
    var latest := LatestTime(entries);
    FilterNone(entries, (e: Entry) => IsNew(e, latest));
  }

  /** Every announced entry is no newer than the new watermark, and when
      something is announced the watermark strictly advances. */
  lemma AnnouncedBoundWatermark(entries: seq<Entry>, latestUpdate: int)
    ensures forall e :: e in NewEntries(entries, latestUpdate) ==> EffectiveTime(e).value <= LatestTime(entries)
    ensures NewEntries(entries, latestUpdate) != [] ==> LatestTime(entries) > latestUpdate
  {
    var r := NewEntries(entries, latestUpdate);
    if r != [] {
      assert r[0] in r;
    }
  }

  /** The lines of an entry's plain-text body: its title, its summary and
      the target of each link. */
  function BodyLines(e: Entry): seq<string>
  {
    OptionalLines(e.title) + OptionalLines(e.summary) + LinkTargets(e.links)
  }

  function LinkTargets(links: seq<Link>): (r: seq<string>)
    ensures |r| == |links|
    ensures forall i :: 0 <= i < |links| ==> r[i] == links[i].href
  {
    if |links| == 0 then [] else [links[0].href] + LinkTargets(links[1..])
  }

  /** The visible text of a link: its title, or else its target. */
  function AnchorText(l: Link): string {
    l.title.GetOr(l.href)
  }

  function Anchor(l: Link): string {
    "<a href=\"" + l.href + "\">" + AnchorText(l) + "</a><br>\n"
  }

  function AnchorsHtml(links: seq<Link>): string
  {
    if |links| == 0 then "" else Anchor(links[0]) + AnchorsHtml(links[1..])
  }

  /** The HTML before the links: bold title, then summary. */
  function HeadHtml(e: Entry): string
  {
    (if e.title.Some? then "<b>" + e.title.value + "</b><br>\n" else "")
    + (if e.summary.Some? then e.summary.value + "<br>\n" else "")
  }

  /** One line of plain text, as `format!("{}\n", ..)` writes it. */
  function Line(s: string): string {
    s + "\n"
  }

  /** The line for an optional field: nothing when the field is absent. */
  function OptionalLine(field: Option<string>): string {
    if field.Some? then Line(field.value) else ""
  }

  function OptionalLines(field: Option<string>): seq<string> {
    if field.Some? then [field.value] else []
  }

  /** `render_entry`: the HTML message and the plain-text body. */
  function RenderEntry(e: Entry): (r: (string, string))
    ensures r.1 == Unlines(BodyLines(e))
    ensures r.0 == HeadHtml(e) + AnchorsHtml(e.links)
  {
    var body := OptionalLine(e.title) + OptionalLine(e.summary) + Unlines(LinkTargets(e.links));
    BodyIsUnlines(e);
    (HeadHtml(e) + AnchorsHtml(e.links), body)
  }

  lemma BodyIsUnlines(e: Entry)
    ensures Unlines(BodyLines(e))
            == OptionalLine(e.title) + OptionalLine(e.summary) + Unlines(LinkTargets(e.links))
  {
    var t := OptionalLines(e.title);
    var u := OptionalLines(e.summary);
    var l := LinkTargets(e.links);
    assert BodyLines(e) == t + (u + l);
    calc {
      Unlines(t + (u + l));
      { UnlinesAppend(t, u + l); }
      Unlines(t) + Unlines(u + l);
      { UnlinesAppend(u, l); }
      Unlines(t) + (Unlines(u) + Unlines(l));
      { OptionalLineIsUnlines(e.title); OptionalLineIsUnlines(e.summary); }
      OptionalLine(e.title) + (OptionalLine(e.summary) + Unlines(l));
    }
  }

  lemma OptionalLineIsUnlines(field: Option<string>)
    ensures Unlines(OptionalLines(field)) == OptionalLine(field)
  {
    if field.Some? {
      assert OptionalLines(field)[1..] == [];
    }
  }

  lemma {:induction false} UnlinesAppend(xs: seq<string>, ys: seq<string>)
    ensures Unlines(xs + ys) == Unlines(xs) + Unlines(ys)
  {
    if |xs| > 0 {
      assert (xs + ys)[1..] == xs[1..] + ys;
      UnlinesAppend(xs[1..], ys);
    } else {
      assert xs + ys == ys;
    }
  }

  /** The body is one newline-terminated line per present title, present
      summary and link, in that order: splitting it on newlines gives back
      exactly those lines (and the empty text after the last newline). */
  lemma BodyHasOneLinePerPart(e: Entry)
    requires e.title.Some? ==> '\n' !in e.title.value
    requires e.summary.Some? ==> '\n' !in e.summary.value
    requires forall i :: 0 <= i < |e.links| ==> '\n' !in e.links[i].href
    ensures Split(RenderEntry(e).1, '\n') == BodyLines(e) + [""]
    ensures |BodyLines(e)| == (if e.title.Some? then 1 else 0) + (if e.summary.Some? then 1 else 0) + |e.links|
  {
    var lines := BodyLines(e);
    forall i | 0 <= i < |lines|
      ensures '\n' !in lines[i]
    {
      var head := OptionalLines(e.title) + OptionalLines(e.summary);
      if i >= |head| {
        assert lines[i] == LinkTargets(e.links)[i - |head|];
      }
    }
    SplitUnlines(lines);
  }

  /** Link i of an entry is rendered, between the HTML of the links before
      it and of those after it, as an anchor to its target whose text is
      the link title if present and the target otherwise. */
  lemma {:induction false} AnchorOfEveryLink(links: seq<Link>, i: nat)
    requires i < |links|
    ensures AnchorsHtml(links) == AnchorsHtml(links[..i]) + Anchor(links[i]) + AnchorsHtml(links[i + 1..])
  {
    if i > 0 {
      var tail := links[1..];
      AnchorOfEveryLink(tail, i - 1);
      assert tail[..i - 1] == links[1..i] && tail[i - 1] == links[i] && tail[i - 1 + 1..] == links[i + 1..];
      assert links[..i][1..] == links[1..i];
      assert AnchorsHtml(links[..i]) == Anchor(links[0]) + AnchorsHtml(links[1..i]);
      ConcatAssoc(Anchor(links[0]), AnchorsHtml(links[1..i]), Anchor(links[i]), AnchorsHtml(links[i + 1..]));
    } else {
      assert links[1..] == links[i + 1..];
      assert links[..i] == [];
    }
  }

  lemma ConcatAssoc(a: string, b: string, c: string, d: string)
    ensures a + (b + c + d) == a + b + c + d
  {
  }

  /** The message for one entry: text, not notice. */
  function EntryMessage(room: RoomId, e: Entry): (m: Message)
    ensures m.room == room && m.kind == Text
    ensures (m.html, m.body) == RenderEntry(e)
  {
    var rendered := RenderEntry(e);
    Message(room, Text, rendered.1, rendered.0)
  }

  function EntryMessages(room: RoomId, entries: seq<Entry>): (r: seq<Message>)
    ensures |r| == |entries|
    ensures forall i :: 0 <= i < |entries| ==> r[i] == EntryMessage(room, entries[i])
  {
    if |entries| == 0 then [] else [EntryMessage(room, entries[0])] + EntryMessages(room, entries[1..])
  }

  /** What fetching and parsing a feed URL produced. */
  datatype FeedFetch = Fetched(entries: seq<Entry>) | FetchFailed

  /** The world's answers for one subscription during one cycle. */
  datatype Observation = Observation(
    joined: bool,
    fetch: FeedFetch,
    sendFailure: Option<nat>,
    storeOk: bool)

  datatype Error = FetchError | SendError | TimestampOutOfRange | StoreError

  /** The state after (part of) a cycle: the store, the messages that
      reached their rooms, and the error that ended the cycle, if any. */
  datatype Cycle = Cycle(store: seq<RssSubscription>, sent: seq<Message>, error: Option<Error>)

  /** The messages announcing the new entries of a fetched feed. */
  function Announcements(sub: RssSubscription, entries: seq<Entry>): seq<Message>
  {
    EntryMessages(sub.room, NewEntries(entries, sub.latestUpdate))
  }

  /** The body of the loop of `interval` for one subscription. */
  function PollSubscription(store: seq<RssSubscription>, sub: RssSubscription, obs: Observation): (r: Cycle)
    // A failed step leaves the store as it was.
    ensures r.error.Some? ==> r.store == store
    // Orphaned subscription: deleted, nothing sent.
    ensures !obs.joined ==> r.sent == [] && (r.error.None? <==> obs.storeOk)
    ensures !obs.joined && r.error.None? ==> r.store == Remove(store, RssKey, RssKey(sub))
    // Live room: a failed fetch sends nothing.
    ensures obs.joined && obs.fetch.FetchFailed? ==> r == Cycle(store, [], Some(FetchError))
    // Messages sent are a prefix of the announcements, all of them on success.
    ensures obs.joined && obs.fetch.Fetched? ==>
              |r.sent| <= |Announcements(sub, obs.fetch.entries)|
              && r.sent == Announcements(sub, obs.fetch.entries)[..|r.sent|]
    // Exactly the announcements up to the first failing send reach the room,
    // even when a later step of the poll fails.
    ensures obs.joined && obs.fetch.Fetched? ==>
              r.sent == Deliver(Announcements(sub, obs.fetch.entries), obs.sendFailure).0
    ensures obs.joined && r.error.None? ==>
              obs.fetch.Fetched? && r.sent == Announcements(sub, obs.fetch.entries)
              && r.store == Upsert(store, RssKey, sub.(latestUpdate := LatestTime(obs.fetch.entries)))
    // A fetched feed is handled without error exactly when every announcement
    // is delivered, the newest date is representable and the store write succeeds.
    ensures obs.joined && obs.fetch.Fetched? ==>
              (r.error.None? <==>
                 (obs.sendFailure.None? || obs.sendFailure.value >= |Announcements(sub, obs.fetch.entries)|)
                 && GetLatestEntry(obs.fetch.entries).Ok? && obs.storeOk)
  {
    if !obs.joined then
      if obs.storeOk then Cycle(Remove(store, RssKey, RssKey(sub)), [], None)
      else Cycle(store, [], Some(StoreError))
    else match obs.fetch
      case FetchFailed => Cycle(store, [], Some(FetchError))
      case Fetched(entries) =>
        var (sent, delivered) := Deliver(Announcements(sub, entries), obs.sendFailure);
        if !delivered then Cycle(store, sent, Some(SendError))
        else match GetLatestEntry(entries)
          case Err(_) => Cycle(store, sent, Some(TimestampOutOfRange))
          case Ok(latest) =>
            if obs.storeOk then Cycle(Upsert(store, RssKey, sub.(latestUpdate := latest)), sent, None)
            else Cycle(store, sent, Some(StoreError))
  }

  /** For an orphaned subscription nothing is fetched and nothing is sent:
      the outcome does not depend on the fetch or the transport. */
  lemma OrphanIsNotFetched(store: seq<RssSubscription>, sub: RssSubscription, obs: Observation,
                           fetch: FeedFetch, sendFailure: Option<nat>)
    requires !obs.joined
    ensures PollSubscription(store, sub, obs)
            == PollSubscription(store, sub, obs.(fetch := fetch, sendFailure := sendFailure))
  {
  }

  /** Polling a subscription again, after a successful poll, with the same
      feed content sends nothing and keeps the watermark. */
  lemma RepollSendsNothing(store: seq<RssSubscription>, sub: RssSubscription, obs: Observation, again: Observation)
    requires obs.joined && obs.fetch.Fetched?
    requires PollSubscription(store, sub, obs).error.None?
    requires again.joined && again.fetch == obs.fetch && again.storeOk
    ensures var polled := sub.(latestUpdate := LatestTime(obs.fetch.entries));
            var r := PollSubscription(PollSubscription(store, sub, obs).store, polled, again);
            r.sent == [] && r.error.None?
            && r.store == PollSubscription(store, sub, obs).store
  {
    var entries := obs.fetch.entries;
    var polled := sub.(latestUpdate := LatestTime(entries));
    NothingNewAfterLatest(entries);
    var first := PollSubscription(store, sub, obs);
    assert Announcements(polled, entries) == [];
    UpsertTwice(store, polled);
  }

  /** A poll that finds the feed without entries resets the watermark to
      the epoch, so the next poll announces again an entry that was already
      announced before the empty answer. */
  lemma ReannouncedAfterEmptyFeed(store: seq<RssSubscription>, sub: RssSubscription, e: Entry,
                                  empty: Observation, full: Observation)
    requires empty.joined && empty.fetch == Fetched([]) && empty.storeOk
    requires full.joined && full.fetch == Fetched([e]) && full.sendFailure.None? && full.storeOk
    requires EffectiveTime(e).Some? && UnixEpoch < EffectiveTime(e).value <= MaxTimestamp
    ensures var reset := sub.(latestUpdate := UnixEpoch);
            var first := PollSubscription(store, sub, empty);
            Find(first.store, RssKey, RssKey(sub)) == Some(reset)
            && PollSubscription(first.store, reset, full).sent == [EntryMessage(sub.room, e)]
    // Without the empty answer, an entry at or before the watermark is not announced.
    ensures EffectiveTime(e).value <= sub.latestUpdate ==> Announcements(sub, [e]) == []
  {
    var reset := sub.(latestUpdate := UnixEpoch);
    assert LatestTime([]) == UnixEpoch;
    assert NewEntries([e], UnixEpoch) == [e];
  }

  lemma {:induction false} UpsertTwice(store: seq<RssSubscription>, s: RssSubscription)
    ensures Upsert(Upsert(store, RssKey, s), RssKey, s) == Upsert(store, RssKey, s)
  {
    if |store| > 0 && RssKey(store[0]) != RssKey(s) {
      UpsertTwice(store[1..], s);
    }
  }

  /** The cycle over the subscriptions still `pending`, stopping at the
      first error. */
  function Run(store: seq<RssSubscription>, pending: seq<RssSubscription>, world: RssSubscription -> Observation): (r: Cycle)
    ensures UniqueKeys(store, RssKey) ==> UniqueKeys(r.store, RssKey)
    decreases |pending|
  {
    if |pending| == 0 then Cycle(store, [], None)
    else
      var step := PollSubscription(store, pending[0], world(pending[0]));
      if step.error.Some? then step
      else
        var rest := Run(step.store, pending[1..], world);
        Cycle(rest.store, step.sent + rest.sent, rest.error)
  }

  /** The first error ends the cycle: once the subscriptions `xs` have
      failed, the ones after them are neither fetched nor touched. */
  lemma {:induction false} ErrorAbortsRest(store: seq<RssSubscription>, xs: seq<RssSubscription>,
                                         ys: seq<RssSubscription>, world: RssSubscription -> Observation)
    requires Run(store, xs, world).error.Some?
    ensures Run(store, xs + ys, world) == Run(store, xs, world)
    decreases |xs|
  {
    var step := PollSubscription(store, xs[0], world(xs[0]));
    ConsAppend(xs, ys);
    if step.error.None? {
      var rest := Run(step.store, xs[1..], world);
      assert Run(store, xs, world) == Cycle(rest.store, step.sent + rest.sent, rest.error);
      ErrorAbortsRest(step.store, xs[1..], ys, world);
      assert Run(store, xs + ys, world) == Cycle(rest.store, step.sent + rest.sent, rest.error);
    }
  }

  /** Without an error, the cycle over `xs + ys` is the cycle over `xs`
      followed by the cycle over `ys` from the store `xs` left. */
  lemma {:induction false} RunAppend(store: seq<RssSubscription>, xs: seq<RssSubscription>,
                                   ys: seq<RssSubscription>, world: RssSubscription -> Observation)
    requires Run(store, xs, world).error.None?
    ensures var first := Run(store, xs, world);
            var second := Run(first.store, ys, world);
            Run(store, xs + ys, world) == Cycle(second.store, first.sent + second.sent, second.error)
    decreases |xs|
  {
    if |xs| == 0 {
      assert xs + ys == ys;
    } else {
      var step := PollSubscription(store, xs[0], world(xs[0]));
      var rest := Run(step.store, xs[1..], world);
      var second := Run(rest.store, ys, world);
      ConsAppend(xs, ys);
      assert step.error.None?;
      assert Run(store, xs, world) == Cycle(rest.store, step.sent + rest.sent, rest.error);
      RunAppend(step.store, xs[1..], ys, world);
      assert Run(step.store, xs[1..] + ys, world) == Cycle(second.store, rest.sent + second.sent, second.error);
      assert Run(store, xs + ys, world) == Cycle(second.store, step.sent + (rest.sent + second.sent), second.error);
      AppendAssoc(step.sent, rest.sent, second.sent);
    }
  }

  /** `interval`: one cycle over every subscription in the store. `listed`
      is whether reading the subscriptions out of the store succeeded; when
      it fails the cycle ends before any feed is fetched. */
  function Interval(store: seq<RssSubscription>, listed: bool, world: RssSubscription -> Observation): (r: Cycle)
    ensures !listed ==> r == Cycle(store, [], Some(StoreError))
    ensures UniqueKeys(store, RssKey) ==> UniqueKeys(r.store, RssKey)
    // Every message announces a new entry of a stored subscription's feed.
    ensures forall m :: m in r.sent ==> exists s :: s in store && Announces(s, world(s), m)
    // After a successful cycle, orphans are gone and live subscriptions
    // carry the newest time of their feed.
    ensures UniqueKeys(store, RssKey) && r.error.None? ==>
              forall i :: 0 <= i < |store| ==>
                if world(store[i]).joined then
                  world(store[i]).fetch.Fetched?
                  && Find(r.store, RssKey, RssKey(store[i]))
                     == Some(store[i].(latestUpdate := LatestTime(world(store[i]).fetch.entries)))
                else Find(r.store, RssKey, RssKey(store[i])).None?
  {
    if !listed then Cycle(store, [], Some(StoreError))
    else
      CycleSendsOnlyNewEntries(store, store, world);
      StoreOutcome(store, world);
      Run(store, store, world)
  }

  /** `CycleOutcomePerSubscription` for the cycle over the whole store. */
  lemma StoreOutcome(store: seq<RssSubscription>, world: RssSubscription -> Observation)
    ensures UniqueKeys(store, RssKey) && Run(store, store, world).error.None? ==>
              forall i :: 0 <= i < |store| ==>
                if world(store[i]).joined then
                  world(store[i]).fetch.Fetched?
                  && Find(Run(store, store, world).store, RssKey, RssKey(store[i]))
                     == Some(store[i].(latestUpdate := LatestTime(world(store[i]).fetch.entries)))
                else Find(Run(store, store, world).store, RssKey, RssKey(store[i])).None?
  {
    if UniqueKeys(store, RssKey) && Run(store, store, world).error.None? {
      CycleOutcomePerSubscription(store, store, world);
    }
  }

  /** Message `m` announces a new entry of subscription `sub`. */
  predicate Announces(sub: RssSubscription, obs: Observation, m: Message) {
    obs.joined && obs.fetch.Fetched? && m in Announcements(sub, obs.fetch.entries)
  }

  /** Every message a cycle sends announces an entry dated strictly after
      the watermark of its subscription. */
  lemma {:induction false} CycleSendsOnlyNewEntries(store: seq<RssSubscription>, pending: seq<RssSubscription>,
                                                  world: RssSubscription -> Observation)
    ensures forall m :: m in Run(store, pending, world).sent ==>
              exists s :: s in pending && Announces(s, world(s), m)
    decreases |pending|
  {
    if |pending| > 0 {
      var step := PollSubscription(store, pending[0], world(pending[0]));
      if step.error.None? {
        CycleSendsOnlyNewEntries(step.store, pending[1..], world);
        forall m | m in Run(store, pending, world).sent
          ensures exists s :: s in pending && Announces(s, world(s), m)
        {
          var rest := Run(step.store, pending[1..], world);
          assert Run(store, pending, world).sent == step.sent + rest.sent;
          if m in step.sent {
            assert Announces(pending[0], world(pending[0]), m);
          } else {
            assert m in rest.sent;
            var s :| s in pending[1..] && Announces(s, world(s), m);
            assert s in pending;
          }
        }
      } else {
        forall m | m in step.sent
          ensures Announces(pending[0], world(pending[0]), m)
        {
          var o := world(pending[0]);
          var ann := Announcements(pending[0], o.fetch.entries);
          assert m in ann[..|step.sent|];
        }
      }
    }
  }

  /** An announced entry is dated strictly after the subscription's
      watermark. */
  lemma AnnouncedEntriesAreNew(sub: RssSubscription, entries: seq<Entry>, m: Message)
    requires m in Announcements(sub, entries)
    ensures exists e :: e in entries && IsNew(e, sub.latestUpdate) && m == EntryMessage(sub.room, e)
  {
    var sel := NewEntries(entries, sub.latestUpdate);
    var i :| 0 <= i < |sel| && Announcements(sub, entries)[i] == m;
    assert sel[i] in sel;
  }

  /** A cycle over subscriptions none of which has a new entry sends
      nothing. */
  lemma {:induction false} QuietCycleSendsNothing(store: seq<RssSubscription>, pending: seq<RssSubscription>,
                                                world: RssSubscription -> Observation)
    requires forall s :: s in pending && world(s).fetch.Fetched? ==>
               NewEntries(world(s).fetch.entries, s.latestUpdate) == []
    ensures Run(store, pending, world).sent == []
    decreases |pending|
  {
    if |pending| > 0 {
      var step := PollSubscription(store, pending[0], world(pending[0]));
      assert pending[0] in pending;
      if step.error.None? {
        QuietCycleSendsNothing(step.store, pending[1..], world);
      }
    }
  }

  /** After a successful cycle, every subscription whose room is gone has
      been deleted, and every other one carries the newest time of its
      feed as watermark. */
  lemma {:induction false} CycleOutcomePerSubscription(store: seq<RssSubscription>, pending: seq<RssSubscription>,
                                                     world: RssSubscription -> Observation)
    requires UniqueKeys(pending, RssKey)
    requires Run(store, pending, world).error.None?
    ensures forall i :: 0 <= i < |pending| && !world(pending[i]).joined ==>
              Find(Run(store, pending, world).store, RssKey, RssKey(pending[i])).None?
    ensures forall i :: 0 <= i < |pending| && world(pending[i]).joined ==>
              world(pending[i]).fetch.Fetched?
              && Find(Run(store, pending, world).store, RssKey, RssKey(pending[i]))
                 == Some(pending[i].(latestUpdate := LatestTime(world(pending[i]).fetch.entries)))
    decreases |pending|
  {
    if |pending| > 0 {
      var s := pending[0];
      var step := PollSubscription(store, s, world(s));
      var rest := pending[1..];
      assert UniqueKeys(rest, RssKey);
      CycleOutcomePerSubscription(step.store, rest, world);
      RunTouchesOnlyPending(step.store, rest, world, RssKey(s));
      forall i | 1 <= i < |pending|
        ensures RssKey(pending[i]) != RssKey(s)
      {
      }
      forall i | 1 <= i < |pending|
        ensures pending[i] == rest[i - 1]
      {
      }
    }
  }

  /** Identities that no pending subscription has keep their lookup. */
  lemma {:induction false} RunTouchesOnlyPending(store: seq<RssSubscription>, pending: seq<RssSubscription>,
                                               world: RssSubscription -> Observation, k: Key)
    requires forall i :: 0 <= i < |pending| ==> RssKey(pending[i]) != k
    ensures Find(Run(store, pending, world).store, RssKey, k) == Find(store, RssKey, k)
    decreases |pending|
  {
    if |pending| > 0 {
      var step := PollSubscription(store, pending[0], world(pending[0]));
      if step.error.None? {
        RunTouchesOnlyPending(step.store, pending[1..], world, k);
      }
    }
  }
}
