/** What the `github` and `rss` chat commands share: the moderator gate,
    the replies, and the four sub-commands as transitions of a subscription
    store.

    Both commands first check that the sender is an admin or a moderator and
    otherwise do nothing at all. `list` replies with one Markdown bullet per
    subscription of the room, or a fixed plain text when there is none;
    `clear` deletes every subscription of the room; `enable` tests the new
    source and stores the subscription only if the test succeeds; `disable`
    deletes the subscription with the given source if the room has one. */
module SubscriptionCommands {
  import opened Wrappers
  import opened Text
  import opened Chat
  import opened Database

  type UserId = string

  /** The access lists of the bot's settings. */
  datatype Access = Access(admins: seq<UserId>, mods: seq<UserId>)

  predicate IsMod(access: Access, sender: UserId) {
    sender in access.admins || sender in access.mods
  }

  /** A reply to the command message: plain text, or Markdown. */
  datatype Reply = Plain(text: string) | Markdown(text: string)

  /** The fixed reply texts of one command. */
  datatype Replies = Replies(
    none: string,
    cleared: string,
    enabled: string,
    invalid: string,
    disabled: string,
    notFound: string)

  /** A sub-command on subscriptions of type S. `Enable` carries the
      subscription to store and whether testing its source succeeded;
      `Disable` names the source to remove from the room. */
  datatype Request<S> = List | Clear | Enable(sub: S, valid: bool) | Disable(source: string)

  /** One line of the `list` reply: `format!("- {}", ..)`. */
  function Bullet(name: string): string {
    "- " + name
  }

  function Bullets(labels: seq<string>): (r: seq<string>)
    ensures |r| == |labels|
    ensures forall i :: 0 <= i < |labels| ==> r[i] == Bullet(labels[i])
  {
    if |labels| == 0 then [] else [Bullet(labels[0])] + Bullets(labels[1..])
  }

  /** The name `list` shows for each subscription, in order. */
  function Labels<S>(subs: seq<S>, name: S -> string): (r: seq<string>)
    ensures |r| == |subs|
    ensures forall i :: 0 <= i < |subs| ==> r[i] == name(subs[i])
  {
    if |subs| == 0 then [] else [name(subs[0])] + Labels(subs[1..], name)
  }

  /** The `list` reply: the bullets joined by newlines as Markdown, or the
      plain `none` text when there is nothing to list. */
  function ListReply(labels: seq<string>, none: string): (r: Reply)
    ensures r.Plain? <==> labels == []
    ensures labels == [] ==> r.text == none
  {
    if labels == [] then Plain(none) else Markdown(Join(Bullets(labels), '\n'))
  }

  /** The `list` reply holds exactly one line per name, in order, when no
      name holds a newline. */
  lemma ListReplyLines(labels: seq<string>, none: string)
    requires labels != []
    requires forall i :: 0 <= i < |labels| ==> '\n' !in labels[i]
    ensures Split(ListReply(labels, none).text, '\n') == Bullets(labels)
  {
    var bs := Bullets(labels);
    forall i | 0 <= i < |bs|
      ensures '\n' !in bs[i]
    {
      BulletOneLine(labels[i]);
    }
    SplitJoin(bs, '\n');
  }

  lemma BulletOneLine(name: string)
    requires '\n' !in name
    ensures '\n' !in Bullet(name)
  {
    assert forall c :: c in Bullet(name) ==> c == '-' || c == ' ' || c in name;
  }

  /** A sub-command of a moderator, on the subscriptions of `room`. */
  function Manage<S(==,!new)>(store: seq<S>, key: S -> Key, name: S -> string, room: RoomId,
                              request: Request<S>, replies: Replies): (r: (seq<S>, Reply))
    ensures UniqueKeys(store, key) ==> UniqueKeys(r.0, key)
    // `list` changes nothing and shows the room's subscriptions.
    ensures request.List? ==> r.0 == store
                              && r.1 == ListReply(Labels(ForRoom(store, key, room), name), replies.none)
    // `clear` removes exactly the room's subscriptions.
    ensures request.Clear? ==> (forall s :: s in r.0 <==> s in store && key(s).0 != room)
                               && r.1 == Plain(replies.cleared)
    ensures request.Clear? ==> forall k: Key :: k.0 != room ==> Find(r.0, key, k) == Find(store, key, k)
    // `enable` stores the subscription only when its source passed the test.
    ensures request.Enable? && request.valid ==> r.1 == Plain(replies.enabled)
    ensures request.Enable? && !request.valid ==> r.1 == Plain(replies.invalid)
    ensures request.Enable? && request.valid ==> Find(r.0, key, key(request.sub)) == Some(request.sub)
    ensures request.Enable? && request.valid ==>
              forall k: Key :: k != key(request.sub) ==> Find(r.0, key, k) == Find(store, key, k)
    ensures request.Enable? && !request.valid ==> r.0 == store
    // `disable` removes the room's subscription to the source, if there is one.
    ensures request.Disable? ==> Find(r.0, key, (room, request.source)).None?
    ensures request.Disable? ==>
              forall k: Key :: k != (room, request.source) ==> Find(r.0, key, k) == Find(store, key, k)
    ensures request.Disable? && Find(store, key, (room, request.source)).Some? ==>
              r.1 == Plain(replies.disabled)
    ensures request.Disable? && Find(store, key, (room, request.source)).None? ==>
              r.0 == store && r.1 == Plain(replies.notFound)
  {
    match request
    case List => (store, ListReply(Labels(ForRoom(store, key, room), name), replies.none))
    case Clear => (RemoveRoom(store, key, room), Plain(replies.cleared))
    case Enable(sub, valid) =>
      if valid then (Upsert(store, key, sub), Plain(replies.enabled)) else (store, Plain(replies.invalid))
    case Disable(source) =>
      if Find(store, key, (room, source)).Some? then (Remove(store, key, (room, source)), Plain(replies.disabled))
      else (store, Plain(replies.notFound))
  }

  /** `list` after a successful `enable` shows the new subscription. */
  lemma EnableThenList<S(!new)>(store: seq<S>, key: S -> Key, name: S -> string, room: RoomId,
                                sub: S, replies: Replies)
    requires key(sub).0 == room
    ensures var enabled := Manage(store, key, name, room, Enable(sub, true), replies).0;
            var shown := Manage(enabled, key, name, room, List, replies).1;
            shown.Markdown? && name(sub) in Labels(ForRoom(enabled, key, room), name)
  {
    var enabled := Manage(store, key, name, room, Enable(sub, true), replies).0;
    var listed := ForRoom(enabled, key, room);
    assert sub in listed;
    var i :| 0 <= i < |listed| && listed[i] == sub;
    assert Labels(listed, name)[i] == name(sub);
  }

  /** `disable` undoes `enable`: the source is gone from the room and every
      other identity has the document it had before the `enable`. */
  lemma EnableThenDisable<S(!new)>(store: seq<S>, key: S -> Key, name: S -> string, room: RoomId,
                                   sub: S, source: string, replies: Replies)
    requires key(sub) == (room, source)
    ensures var enabled := Manage(store, key, name, room, Enable(sub, true), replies).0;
            var disabled := Manage(enabled, key, name, room, Disable(source), replies);
            disabled.1 == Plain(replies.disabled)
            && Find(disabled.0, key, (room, source)).None?
            && forall k: Key :: k != (room, source) ==> Find(disabled.0, key, k) == Find(store, key, k)
  {
  }

  /** A second `disable` of the same source finds nothing and changes
      nothing. */
  lemma DisableTwice<S(!new)>(store: seq<S>, key: S -> Key, name: S -> string, room: RoomId,
                              source: string, replies: Replies)
    ensures var once := Manage(store, key, name, room, Disable(source), replies).0;
            Manage(once, key, name, room, Disable(source), replies) == (once, Plain(replies.notFound))
  {
  }

  /** After `clear`, `list` shows nothing. */
  lemma ClearThenList<S(!new)>(store: seq<S>, key: S -> Key, name: S -> string, room: RoomId,
                               replies: Replies)
    ensures var cleared := Manage(store, key, name, room, Clear, replies).0;
            Manage(cleared, key, name, room, List, replies).1 == Plain(replies.none)
  {
  }
}
