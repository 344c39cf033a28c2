/**
 The threading tables (threads, messages, message_mailboxes) as values, and what one synchronised email does to them.
 A message row is named by its account and Stalwart email id, which the schema makes unique.
 */
module MailStore {
  import opened Wrappers
  import Subjects

  type ThreadId = string

  datatype Key = Key(account: string, emailId: string)

  /** The threading headers of an email; they never change for a given email id. */
  datatype Headers = Headers(messageIds: seq<string>, inReplyTo: seq<string>, references: seq<string>, subject: string)

  /** An email as fetched from the server. */
  datatype Email = Email(id: string, headers: Headers, mailboxIds: map<string, bool>, keywords: map<string, bool>)

  datatype Message = Message(
    threadId: ThreadId, messageId: string, inReplyTo: Option<string>, references: seq<string>, subject: string)

  /** The key of a message_mailboxes row. */
  datatype Slot = Slot(message: Key, mailbox: string)

  datatype Flags = Flags(unread: bool, draft: bool, trashed: bool, sent: bool)

  datatype Thread = Thread(
    account: string, subject: string, messageCount: nat, unreadCount: nat, lastMessageAt: int)

  datatype Store = Store(threads: map<ThreadId, Thread>, messages: map<Key, Message>, slots: map<Slot, Flags>)

  const EMPTY := Store(map[], map[], map[])

  /** The window of the subject match: 30 days. */
  const RECENT := 30 * 24 * 3600

  // ----- Headers -----

  /** The Message-ID column: the first header value, or the empty string. */
  function MessageId(h: Headers): string {
    if h.messageIds == [] then "" else h.messageIds[0]
  }

  /** The In-Reply-To column keeps only the first header value. */
  function FirstParent(h: Headers): Option<string> {
    if h.inReplyTo == [] then None else Some(h.inReplyTo[0])
  }

  function Row(h: Headers, t: ThreadId): Message {
    Message(t, MessageId(h), FirstParent(h), h.references, h.subject)
  }

  /** A row whose In-Reply-To or References column names the Message-ID. */
  predicate Cites(m: Message, id: string) {
    m.inReplyTo == Some(id) || id in m.references
  }

  // ----- The cached counts -----

  predicate Active(slots: map<Slot, Flags>, k: Key) {
    exists s <- slots :: s.message == k && !slots[s].trashed
  }

  predicate Unread(slots: map<Slot, Flags>, k: Key) {
    exists s <- slots :: s.message == k && slots[s].unread
  }

  function ActiveIn(messages: map<Key, Message>, slots: map<Slot, Flags>, t: ThreadId): set<Key> {
    set k <- messages | messages[k].threadId == t && Active(slots, k)
  }

  function UnreadIn(messages: map<Key, Message>, slots: map<Slot, Flags>, t: ThreadId): set<Key> {
    set k <- ActiveIn(messages, slots, t) | Unread(slots, k)
  }

  /** The threads table after the projection of one thread is recomputed. */
  function Projected(threads: map<ThreadId, Thread>, messages: map<Key, Message>, slots: map<Slot, Flags>,
                     t: ThreadId, now: int): map<ThreadId, Thread> {
    if t !in threads then threads
    else threads[t := threads[t].(messageCount := |ActiveIn(messages, slots, t)|,
                                  unreadCount := |UnreadIn(messages, slots, t)|,
                                  lastMessageAt := now)]
  }

  // ----- Finding the thread of an email -----

  /** How an email found its thread; the rows a LIMIT 1 may pick are all allowed. */
  datatype Route =
    | Existing
    | ViaReply(parent: Key)
    | ViaReference(ancestor: Key)
    | ViaSubject(candidate: ThreadId)
    | NewThread(created: ThreadId)

  /** Message row p of the account carries one of the Message-IDs. */
  predicate Named(messages: map<Key, Message>, account: string, ids: seq<string>, p: Key) {
    p in messages && p.account == account && messages[p].messageId in ids
  }

  predicate AnyNamed(messages: map<Key, Message>, account: string, ids: seq<string>) {
    exists p <- messages :: Named(messages, account, ids, p)
  }

  ghost predicate SubjectEligible(subject: string) {
    Subjects.IsReply(subject) && Subjects.Normalized(subject) != ""
  }

  predicate Recent(threads: map<ThreadId, Thread>, account: string, subject: string, now: int, t: ThreadId) {
    t in threads && threads[t].account == account && threads[t].subject == subject
    && threads[t].lastMessageAt > now - RECENT
  }

  /** The candidate threads of the subject match, latest first. */
  predicate Latest(threads: map<ThreadId, Thread>, account: string, subject: string, now: int, t: ThreadId) {
    && Recent(threads, account, subject, now, t)
    && forall u <- threads :: Recent(threads, account, subject, now, u) ==>
                              threads[u].lastMessageAt <= threads[t].lastMessageAt
  }

  /** The five-step hierarchy: each step is tried only when the ones before it find nothing. */
  ghost predicate Routes(s: Store, account: string, e: Email, now: int, r: Route) {
    var h := e.headers;
    var known := Key(account, e.id) in s.messages;
    var byReply := AnyNamed(s.messages, account, h.inReplyTo);
    var byReference := AnyNamed(s.messages, account, h.references);
    var subject := Subjects.Normalized(h.subject);
    match r
    case Existing => known
    case ViaReply(p) => !known && Named(s.messages, account, h.inReplyTo, p)
    case ViaReference(p) => !known && !byReply && Named(s.messages, account, h.references, p)
    case ViaSubject(t) =>
      !known && !byReply && !byReference && SubjectEligible(h.subject) && Latest(s.threads, account, subject, now, t)
    case NewThread(t) =>
      && !known && !byReply && !byReference && t !in s.threads
      && (SubjectEligible(h.subject) ==> forall u <- s.threads :: !Recent(s.threads, account, subject, now, u))
  }

  ghost function Target(s: Store, account: string, e: Email, now: int, r: Route): ThreadId
    requires Routes(s, account, e, now, r)
  {
    match r
    case Existing => s.messages[Key(account, e.id)].threadId
    case ViaReply(p) => s.messages[p].threadId
    case ViaReference(p) => s.messages[p].threadId
    case ViaSubject(t) => t
    case NewThread(t) => t
  }

  /** A new thread is named by the normalised subject, or by the raw one when nothing is left of it. */
  ghost function ThreadSubject(subject: string): string {
    var n := Subjects.Normalized(subject);
    if n == "" then subject else n
  }

  ghost function Opened(s: Store, account: string, e: Email, now: int, r: Route): map<ThreadId, Thread> {
    if r.NewThread? then s.threads[r.created := Thread(account, ThreadSubject(e.headers.subject), 1, 0, now)]
    else s.threads
  }

  // ----- What one email writes -----

  predicate IsSet(flags: map<string, bool>, name: string) {
    name in flags && flags[name]
  }

  function FlagsOf(e: Email): Flags {
    Flags(!IsSet(e.keywords, "$seen"), IsSet(e.keywords, "$draft"), false, false)
  }

  /** The mailbox rows after the email is filed in those of the given mailboxes that it is present in. */
  function FiledIn(slots: map<Slot, Flags>, k: Key, e: Email, mailboxes: set<string>): map<Slot, Flags> {
    slots + map b | b in mailboxes && IsSet(e.mailboxIds, b) :: Slot(k, b) := FlagsOf(e)
  }

  function Filed(slots: map<Slot, Flags>, k: Key, e: Email): map<Slot, Flags> {
    FiledIn(slots, k, e, e.mailboxIds.Keys)
  }

  /** The other threads of the account that hold a message citing the Message-ID. */
  function Orphans(messages: map<Key, Message>, account: string, id: string, t: ThreadId): set<ThreadId> {
    if id == "" then {}
    else set k <- messages | k.account == account && Cites(messages[k], id) && messages[k].threadId != t
           :: messages[k].threadId
  }

  function Moved(messages: map<Key, Message>, from: set<ThreadId>, to: ThreadId): map<Key, Message> {
    map k <- messages :: if messages[k].threadId in from then messages[k].(threadId := to) else messages[k]
  }

  /** The store after one email is synchronised along route r. */
  ghost function Synced(s: Store, account: string, e: Email, now: int, r: Route): Store
    requires Routes(s, account, e, now, r)
  {
    var k := Key(account, e.id);
    var t := Target(s, account, e, now, r);
    var messages := s.messages[k := Row(e.headers, t)];
    var slots := Filed(s.slots, k, e);
    var orphans := Orphans(messages, account, MessageId(e.headers), t);
    var merged := Moved(messages, orphans, t);
    Store(Projected(Opened(s, account, e, now, r) - orphans, merged, slots, t, now), merged, slots)
  }

  // ----- Runs -----

  /** One call of ProcessEmailSync: the email, the transaction's time, and the route taken. */
  datatype Event = Event(account: string, email: Email, now: int, route: Route)

  function KeyOf(ev: Event): Key {
    Key(ev.account, ev.email.id)
  }

  ghost predicate Enabled(s: Store, ev: Event) {
    Routes(s, ev.account, ev.email, ev.now, ev.route)
  }

  ghost function Step(s: Store, ev: Event): Store
    requires Enabled(s, ev)
  {
    Synced(s, ev.account, ev.email, ev.now, ev.route)
  }

  /** One transaction: the event is enabled and the tables become what it writes. */
  ghost predicate Leads(s: Store, ev: Event, s': Store) {
    Enabled(s, ev) && s' == Step(s, ev)
  }

  /** A behaviour: each event leads from one store to the next. */
  ghost predicate IsBehavior(states: seq<Store>, evs: seq<Event>) {
    && |states| == |evs| + 1
    && forall i {:trigger evs[i]} :: 0 <= i < |evs| ==> Leads(states[i], evs[i], states[i + 1])
  }
}
