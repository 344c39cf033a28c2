/** The threading tables updated in place: thread resolution, upserts, projection and orphan merging. */
module MailRepository {
  import opened Wrappers
  import opened MailStore
  import opened MailRows
  import Subjects

  class Repository {
    var threads: map<ThreadId, Thread>
    var messages: map<Key, Message>
    var slots: map<Slot, Flags>

    ghost function View(): Store
      reads this
    {
      Store(threads, messages, slots)
    }

    constructor ()
      ensures View() == EMPTY
    {
      threads, messages, slots := map[], map[], map[];
    }

    /** Finds or opens the thread of an email; newId is the id the database would generate. */
    method ResolveThread(account: string, e: Email, now: int, newId: ThreadId)
      returns (threadId: ThreadId, isNew: bool, ghost route: Route)
      requires newId !in threads
      modifies this`threads
      ensures Routes(old(View()), account, e, now, route)
      ensures threadId == Target(old(View()), account, e, now, route)
      ensures isNew == route.NewThread?
      ensures threads == Opened(old(View()), account, e, now, route)
      ensures var k, replied, referenced := Key(account, e.id), e.headers.inReplyTo, e.headers.references;
              var byReply := set p <- messages | p.account == account && messages[p].messageId in replied
                               :: messages[p].threadId;
              var byReference := set p <- messages | p.account == account && messages[p].messageId in referenced
                                   :: messages[p].threadId;
              && (k in messages ==> threadId == messages[k].threadId)
              && (k !in messages && byReply != {} ==> threadId in byReply)
              && (k !in messages && byReply == {} && byReference != {} ==> threadId in byReference)
              && (isNew ==> k !in messages && byReply == byReference == {} && threadId == newId)
              && (!isNew ==> threads == old(threads))
              && (!isNew && k !in messages && byReply == byReference == {} ==>
                    && Subjects.IsReply(e.headers.subject) && Subjects.Normalized(e.headers.subject) != ""
                    && threadId in threads && threads[threadId].account == account
                    && threads[threadId].subject == Subjects.Normalized(e.headers.subject)
                    && threads[threadId].lastMessageAt > now - 2_592_000
                    && forall u <- threads | threads[u].account == account
                                             && threads[u].subject == threads[threadId].subject ::
                         threads[u].lastMessageAt <= threads[threadId].lastMessageAt)
      ensures isNew ==>
                var n := Subjects.Normalized(e.headers.subject);
                var named := if n == "" then e.headers.subject else n;
                && threads == old(threads)[newId := Thread(account, named, 1, 0, now)]
                && (Subjects.IsReply(e.headers.subject) && n != "" ==>
                      forall u <- old(threads) | old(threads)[u].account == account && old(threads)[u].subject == n ::
                        old(threads)[u].lastMessageAt <= now - 2_592_000)
    {
      var k := Key(account, e.id);
      if k in messages {
        return messages[k].threadId, false, Existing;
      }
      if e.headers.inReplyTo != [] && AnyNamed(messages, account, e.headers.inReplyTo) {
        var p :| p in messages && Named(messages, account, e.headers.inReplyTo, p);
        return messages[p].threadId, false, ViaReply(p);
      }
      if e.headers.references != [] && AnyNamed(messages, account, e.headers.references) {
        var p :| p in messages && Named(messages, account, e.headers.references, p);
        return messages[p].threadId, false, ViaReference(p);
      }
      var subject := Subjects.NormalizeSubject(e.headers.subject);
      if Subjects.IsReply(e.headers.subject) && subject != "" {
        var found, t := LatestBySubject(account, subject, now);
        if found {
          return t, false, ViaSubject(t);
        }
      }
      var named := if subject == "" then e.headers.subject else subject;
      threads := threads[newId := Thread(account, named, 1, 0, now)];
      return newId, true, NewThread(newId);
    }

    /** The subject query: the recent thread with the latest message, if there is one. */
    method LatestBySubject(account: string, subject: string, now: int) returns (found: bool, t: ThreadId)
      ensures found ==> Latest(threads, account, subject, now, t)
      ensures !found ==> forall u <- threads :: !Recent(threads, account, subject, now, u)
      ensures found <==> exists u <- threads :: threads[u].account == account && threads[u].subject == subject
                                                && threads[u].lastMessageAt > now - 2_592_000
      ensures found ==>
                && t in threads && threads[t].account == account && threads[t].subject == subject
                && forall u <- threads | threads[u].account == account && threads[u].subject == subject ::
                     threads[u].lastMessageAt <= threads[t].lastMessageAt
    {
      found, t := false, "";
      var todo := threads.Keys;
      while todo != {}
        invariant todo <= threads.Keys
        invariant found ==> Recent(threads, account, subject, now, t)
        invariant forall u <- threads | u !in todo && Recent(threads, account, subject, now, u) ::
                    found && threads[u].lastMessageAt <= threads[t].lastMessageAt
        decreases todo
      {
        var u :| u in todo;
        todo := todo - {u};
        if Recent(threads, account, subject, now, u)
           && (!found || threads[u].lastMessageAt > threads[t].lastMessageAt) {
          found, t := true, u;
        }
      }
    }

    method UpsertMessage(k: Key, m: Message)
      modifies this`messages
      ensures messages == old(messages)[k := m]
    {
      messages := messages[k := m];
    }

    method UpsertMessageMailbox(k: Key, mailbox: string, flags: Flags)
      modifies this`slots
      ensures slots == old(slots)[Slot(k, mailbox) := flags]
    {
      slots := slots[Slot(k, mailbox) := flags];
    }

    method UpdateThreadProjection(t: ThreadId, now: int)
      modifies this`threads
      ensures threads == Projected(old(threads), messages, slots, t, now)
    {
      if t in threads {
        threads := threads[t := threads[t].(messageCount := |ActiveIn(messages, slots, t)|,
                                            unreadCount := |UnreadIn(messages, slots, t)|,
                                            lastMessageAt := now)];
      }
    }

    /** Deletes a thread row; the foreign keys take its messages and their mailbox rows with it. */
    method DeleteThread(t: ThreadId)
      modifies this
      ensures threads == old(threads) - {t}
      ensures messages == Outside(old(messages), t)
      ensures slots == SlotsOutside(old(messages), old(slots), t)
    {
      slots := SlotsOutside(messages, slots, t);
      messages := Outside(messages, t);
      threads := threads - {t};
    }

    /** Merges every other thread that holds a message citing id into the canonical thread. */
    method ReconcileOrphans(account: string, id: string, canonical: ThreadId, now: int)
      requires id != ""
      modifies this
      ensures var orphans := Orphans(old(messages), account, id, canonical);
              && messages == Moved(old(messages), orphans, canonical)
              && slots == old(slots)
              && threads == Merged(old(threads), messages, slots, orphans, canonical, now)
    {
      var orphans := Orphans(messages, account, id, canonical);
      var todo := orphans;
      ghost var done: set<ThreadId> := {};
      MovedNothing(messages, canonical);
      while todo != {}
        invariant canonical !in orphans && done + todo == orphans && done !! todo
        invariant messages == Moved(old(messages), done, canonical)
        invariant slots == old(slots)
        invariant threads == Merged(old(threads), messages, slots, done, canonical, now)
        decreases todo
      {
        var dup :| dup in todo;
        ghost var earlier := messages;
        messages := Moved(messages, {dup}, canonical);
        UpdateThreadProjection(canonical, now);
        NothingOutside(earlier, messages, slots, dup, canonical);
        DeleteThread(dup);
        MovedOneMore(old(messages), done, dup, canonical);
        MergedOneMore(old(threads), earlier, messages, slots, done, dup, canonical, now);
        todo, done := todo - {dup}, done + {dup};
      }
      assert done == orphans;
    }

    /** Records every mailbox the email is present in; rows of other mailboxes stay as they were. */
    method UpsertMailboxes(k: Key, e: Email)
      modifies this`slots
      ensures slots == Filed(old(slots), k, e)
    {
      var todo := e.mailboxIds.Keys;
      ghost var done: set<string> := {};
      FiledNowhere(slots, k, e);
      while todo != {}
        invariant done + todo == e.mailboxIds.Keys
        invariant slots == FiledIn(old(slots), k, e, done)
        decreases todo
      {
        var b :| b in todo;
        FiledInOneMore(old(slots), k, e, done, b);
        if e.mailboxIds[b] {
          UpsertMessageMailbox(k, b, Flags(!IsSet(e.keywords, "$seen"), IsSet(e.keywords, "$draft"), false, false));
        }
        todo, done := todo - {b}, done + {b};
      }
      assert done == e.mailboxIds.Keys;
    }

    /** Stores one email and files it in its conversation. */
    method ProcessEmailSync(account: string, e: Email, now: int, newId: ThreadId) returns (ghost route: Route)
      requires newId !in threads
      modifies this
      ensures Routes(old(View()), account, e, now, route)
      ensures View() == Synced(old(View()), account, e, now, route)
      ensures var k, h := Key(account, e.id), e.headers;
              && messages.Keys == old(messages).Keys + {k}
              && messages[k].messageId == (if h.messageIds == [] then "" else h.messageIds[0])
              && messages[k].inReplyTo == (if h.inReplyTo == [] then None else Some(h.inReplyTo[0]))
              && messages[k].references == h.references && messages[k].subject == h.subject
      ensures var k, id := Key(account, e.id), if e.headers.messageIds == [] then "" else e.headers.messageIds[0];
              && (forall j <- old(messages) | j != k && j.account == account && id != ""
                                              && (old(messages)[j].inReplyTo == Some(id)
                                                  || id in old(messages)[j].references) ::
                    messages[j].threadId == messages[k].threadId)
              && (forall j <- old(messages) | j != k ::
                    || messages[j] == old(messages)[j]
                    || messages[j] == old(messages)[j].(threadId := messages[k].threadId))
      ensures var k := Key(account, e.id);
              && (forall b <- e.mailboxIds | e.mailboxIds[b] ::
                    && Slot(k, b) in slots && !slots[Slot(k, b)].trashed && !slots[Slot(k, b)].sent
                    && (slots[Slot(k, b)].unread <==> !("$seen" in e.keywords && e.keywords["$seen"]))
                    && (slots[Slot(k, b)].draft <==> "$draft" in e.keywords && e.keywords["$draft"]))
              && (forall x: Slot | x.message != k || x.mailbox !in e.mailboxIds || !e.mailboxIds[x.mailbox] ::
                    (x in slots <==> x in old(slots)) && (x in slots ==> slots[x] == old(slots)[x]))
    {
      hide Routes, Synced, Target, Opened, Filed, Projected, Orphans, Moved, Merged;
      ghost var before := View();
      var k := Key(account, e.id);
      var threadId, isNew, r := ResolveThread(account, e, now, newId);
      route := r;
      var id := MessageId(e.headers);
      UpsertMessage(k, Message(threadId, id, FirstParent(e.headers), e.headers.references, e.headers.subject));
      UpsertMailboxes(k, e);
      UpdateThreadProjection(threadId, now);
      if id != "" {
        ReconcileOrphans(account, id, threadId, now);
      }
      SyncedBy(before, View(), account, e, now, route);
      SyncedRows(before, View(), account, e, now, route);
    }
  }

  /** The statements of one email, put together. */
  lemma SyncedBy(s: Store, s': Store, account: string, e: Email, now: int, r: Route)
    requires Routes(s, account, e, now, r)
    requires var k, t, id := Key(account, e.id), Target(s, account, e, now, r), MessageId(e.headers);
             var stored := s.messages[k := Row(e.headers, t)];
             var projected := Projected(Opened(s, account, e, now, r), stored, s'.slots, t, now);
             var orphans := Orphans(stored, account, id, t);
             && s'.slots == Filed(s.slots, k, e)
             && s'.messages == (if id == "" then stored else Moved(stored, orphans, t))
             && s'.threads == if id == "" then projected
                              else Merged(projected, s'.messages, s'.slots, orphans, t, now)
    ensures s' == Synced(s, account, e, now, r)
  {
    hide Routes, Target, Opened, Filed, Projected, Merged;
    var t, id := Target(s, account, e, now, r), MessageId(e.headers);
    var stored := s.messages[Key(account, e.id) := Row(e.headers, t)];
    var orphans := Orphans(stored, account, id, t);
    MovedNothing(stored, t);
    MergedNothing(Projected(Opened(s, account, e, now, r), stored, s'.slots, t, now), s'.messages, s'.slots, t, now);
    ProjectedTwice(Opened(s, account, e, now, r), stored, s'.messages, s'.slots, orphans, t, now);
  }

  lemma MergedNothing(threads: map<ThreadId, Thread>, messages: map<Key, Message>, slots: map<Slot, Flags>,
                      t: ThreadId, now: int)
    ensures Merged(threads, messages, slots, {}, t, now) == threads
  {}

  /** A recomputed projection counts the messages with a row not trashed, and those of them with an unread row. */
  lemma ProjectionCounts(threads: map<ThreadId, Thread>, messages: map<Key, Message>, slots: map<Slot, Flags>,
                         t: ThreadId, now: int)
    ensures var after := Projected(threads, messages, slots, t, now);
            var mine := set k <- messages | messages[k].threadId == t && exists x <- slots ::
                                              x.message == k && !slots[x].trashed;
            var unread := set k <- mine | exists x <- slots :: x.message == k && slots[x].unread;
            && after.Keys == threads.Keys && (forall u <- threads | u != t :: after[u] == threads[u])
            && (t in threads ==> after[t] == Thread(threads[t].account, threads[t].subject, |mine|, |unread|, now))
  {
    var mine := set k <- messages | messages[k].threadId == t && exists x <- slots ::
                                      x.message == k && !slots[x].trashed;
    var unread := set k <- mine | exists x <- slots :: x.message == k && slots[x].unread;
    assert ActiveIn(messages, slots, t) == mine && UnreadIn(messages, slots, t) == unread;
  }

  /** Merging empties exactly the other threads that hold a message of the account citing the id, into the canonical. */
  lemma MergeMoves(messages: map<Key, Message>, account: string, id: string, canonical: ThreadId)
    requires id != ""
    ensures var orphans := Orphans(messages, account, id, canonical);
            var after := Moved(messages, orphans, canonical);
            && (forall u :: u in orphans <==>
                  u != canonical && exists j <- messages ::
                    && j.account == account && (messages[j].inReplyTo == Some(id) || id in messages[j].references)
                    && messages[j].threadId == u)
            && after.Keys == messages.Keys
            && (forall k <- messages | messages[k].threadId in orphans ::
                  after[k] == messages[k].(threadId := canonical))
            && (forall k <- messages | messages[k].threadId !in orphans :: after[k] == messages[k])
  {}

  /** All that one email leaves in the rows. */
  lemma SyncedRows(s: Store, s': Store, account: string, e: Email, now: int, r: Route)
    requires Routes(s, account, e, now, r) && s' == Synced(s, account, e, now, r)
    ensures var k, h := Key(account, e.id), e.headers;
            && s'.messages.Keys == s.messages.Keys + {k}
            && s'.messages[k].messageId == (if h.messageIds == [] then "" else h.messageIds[0])
            && s'.messages[k].inReplyTo == (if h.inReplyTo == [] then None else Some(h.inReplyTo[0]))
            && s'.messages[k].references == h.references && s'.messages[k].subject == h.subject
    ensures var k, id := Key(account, e.id), if e.headers.messageIds == [] then "" else e.headers.messageIds[0];
            && (forall j <- s.messages | j != k && j.account == account && id != ""
                                         && (s.messages[j].inReplyTo == Some(id) || id in s.messages[j].references) ::
                  s'.messages[j].threadId == s'.messages[k].threadId)
            && (forall j <- s.messages | j != k ::
                  || s'.messages[j] == s.messages[j]
                  || s'.messages[j] == s.messages[j].(threadId := s'.messages[k].threadId))
    ensures var k := Key(account, e.id);
            && (forall b <- e.mailboxIds | e.mailboxIds[b] ::
                  && Slot(k, b) in s'.slots && !s'.slots[Slot(k, b)].trashed && !s'.slots[Slot(k, b)].sent
                  && (s'.slots[Slot(k, b)].unread <==> !("$seen" in e.keywords && e.keywords["$seen"]))
                  && (s'.slots[Slot(k, b)].draft <==> "$draft" in e.keywords && e.keywords["$draft"]))
            && (forall x: Slot | x.message != k || x.mailbox !in e.mailboxIds || !e.mailboxIds[x.mailbox] ::
                  (x in s'.slots <==> x in s.slots) && (x in s'.slots ==> s'.slots[x] == s.slots[x]))
  {
    hide Synced, Routes;
    var ev := Event(account, e, now, r);
    StoredRow(s, ev);
    StoredFlags(s, ev);
    MovesCiters(s, ev);
  }

  lemma FiledNowhere(slots: map<Slot, Flags>, k: Key, e: Email)
    ensures FiledIn(slots, k, e, {}) == slots
  {}

  lemma FiledInOneMore(slots: map<Slot, Flags>, k: Key, e: Email, done: set<string>, b: string)
    ensures FiledIn(slots, k, e, done + {b})
         == if IsSet(e.mailboxIds, b) then FiledIn(slots, k, e, done)[Slot(k, b) := FlagsOf(e)]
            else FiledIn(slots, k, e, done)
  {}

  /** The threads table after some threads are merged into the canonical one, which is projected anew. */
  function Merged(threads: map<ThreadId, Thread>, messages: map<Key, Message>, slots: map<Slot, Flags>,
                  gone: set<ThreadId>, canonical: ThreadId, now: int): map<ThreadId, Thread> {
    if gone == {} then threads else Projected(threads - gone, messages, slots, canonical, now)
  }

  /** The messages that survive the deletion of a thread row. */
  function Outside(messages: map<Key, Message>, t: ThreadId): map<Key, Message> {
    map k <- messages | messages[k].threadId != t :: messages[k]
  }

  function SlotsOutside(messages: map<Key, Message>, slots: map<Slot, Flags>, t: ThreadId): map<Slot, Flags> {
    map s <- slots | s.message !in messages || messages[s.message].threadId != t :: slots[s]
  }

  lemma MovedNothing(messages: map<Key, Message>, t: ThreadId)
    ensures Moved(messages, {}, t) == messages
  {}

  lemma MovedOneMore(messages: map<Key, Message>, done: set<ThreadId>, dup: ThreadId, t: ThreadId)
    requires t != dup
    ensures Moved(Moved(messages, done, t), {dup}, t) == Moved(messages, done + {dup}, t)
  {}

  /** Once its messages have moved, deleting a thread takes nothing with it. */
  lemma NothingOutside(earlier: map<Key, Message>, messages: map<Key, Message>, slots: map<Slot, Flags>,
                       dup: ThreadId, t: ThreadId)
    requires t != dup && messages == Moved(earlier, {dup}, t)
    ensures Outside(messages, dup) == messages && SlotsOutside(messages, slots, dup) == slots
  {}

  lemma MergedOneMore(threads: map<ThreadId, Thread>, earlier: map<Key, Message>, later: map<Key, Message>,
                      slots: map<Slot, Flags>, done: set<ThreadId>, dup: ThreadId, t: ThreadId, now: int)
    requires t != dup && t !in done
    ensures Projected(Merged(threads, earlier, slots, done, t, now), later, slots, t, now) - {dup}
         == Merged(threads, later, slots, done + {dup}, t, now)
  {
    var gone := done + {dup};
    if done == {} {
      assert threads - {} == threads;
    }
    assert (threads - done) - {dup} == threads - gone;
  }

  /** A projection made before a merge leaves no trace in the projection made after it. */
  lemma ProjectedTwice(threads: map<ThreadId, Thread>, earlier: map<Key, Message>, later: map<Key, Message>,
                       slots: map<Slot, Flags>, gone: set<ThreadId>, t: ThreadId, now: int)
    requires t !in gone
    requires gone == {} ==> later == earlier
    ensures Merged(Projected(threads, earlier, slots, t, now), later, slots, gone, t, now)
         == Projected(threads - gone, later, slots, t, now)
  {
    if gone == {} {
      assert threads - gone == threads;
    }
  }
}
