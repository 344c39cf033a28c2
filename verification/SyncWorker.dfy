/** The reconciliation worker: one change batch from the mail server, applied to the tables in one transaction. */
module SyncWorker {
  import opened Wrappers
  import opened MailStore
  import MailRepository

  /** The server's state strings, named by their place in its history; an empty column is Unset. */
  datatype Token = Unset | At(place: nat)

  datatype SyncStatus = Idle | Syncing | Errored

  datatype SyncState = SyncState(token: Token, status: SyncStatus)

  datatype EventType = MessageCreated | MessageUpdated | MessageDeleted

  datatype OutboxEvent = OutboxEvent(user: string, eventType: EventType, emailId: string)

  datatype Changes = Changes(created: seq<string>, updated: seq<string>, destroyed: seq<string>, newToken: Token)

  /** The server's answer to the changes call. */
  datatype ChangesReply = Got(changes: Changes) | CannotCalculate | Unavailable

  /** The first statement of the batch transaction that fails, if any: an email, a deletion, or the token and commit. */
  datatype Fault = NoFault | AtBegin | AtEmail(index: nat) | AtDelete(index: nat) | AtCommit

  /** How one job ends. */
  datatype Ending = Initialised | NothingDone | Reset | Postponed | Abandoned | Committed

  /** The tables of one database, as the worker sees them. */
  datatype Db = Db(store: Store, sync: map<string, SyncState>, outbox: seq<OutboxEvent>)

  /** Deleting message rows takes their mailbox rows with them; thread rows and their counts are left as they are. */
  function Purged(s: Store, account: string, ids: seq<string>): Store {
    s.(messages := map k <- s.messages | !(k.account == account && k.emailId in ids) :: s.messages[k],
       slots := map x <- s.slots | !(x.message.account == account && x.message.emailId in ids) :: s.slots[x])
  }

  function Notices(user: string, eventType: EventType, ids: seq<string>): seq<OutboxEvent> {
    seq(|ids|, i requires 0 <= i < |ids| => OutboxEvent(user, eventType, ids[i]))
  }

  /** One event per changed id, in the order of the three lists. */
  function Emitted(user: string, c: Changes): seq<OutboxEvent> {
    Notices(user, MessageCreated, c.created) + Notices(user, MessageUpdated, c.updated)
    + Notices(user, MessageDeleted, c.destroyed)
  }

  /** The emails a batch processes: none are fetched when nothing was created or updated. */
  function Fetched(c: Changes, fetched: Option<seq<Email>>): seq<Email> {
    if c.created + c.updated == [] then [] else fetched.GetOr([])
  }

  /** The stores a batch of emails passes through, one ProcessEmailSync at a time. */
  ghost predicate Synchronises(states: seq<Store>, evs: seq<Event>, account: string, emails: seq<Email>) {
    && IsBehavior(states, evs) && |evs| == |emails|
    && forall i :: 0 <= i < |evs| ==> evs[i].account == account && evs[i].email == emails[i]
  }

  /** A committed batch: emails synchronised, deletions made, events emitted and the token stored, at once. */
  ghost predicate Applied(db: Db, db': Db, mailbox: string, user: string, c: Changes, emails: seq<Email>) {
    && (exists states, evs :: Synchronises(states, evs, mailbox, emails) && states[0] == db.store
                              && db'.store == Purged(states[|evs|], mailbox, c.destroyed))
    && db'.sync == WithState(db.sync, mailbox, SyncState(c.newToken, Idle))
    && db'.outbox == db.outbox + Emitted(user, c)
  }

  /** UPDATE of the mailbox's row, if there is one: its status, or its state and status. */
  function WithStatus(sync: map<string, SyncState>, mailbox: string, status: SyncStatus): map<string, SyncState> {
    if mailbox in sync then sync[mailbox := sync[mailbox].(status := status)] else sync
  }

  function WithState(sync: map<string, SyncState>, mailbox: string, s: SyncState): map<string, SyncState> {
    if mailbox in sync then sync[mailbox := s] else sync
  }

  /** How a job ends, by what mail server and database answer; initial is the server's state when asked for it. */
  function EndingOf(token: Token, initial: Option<nat>, reply: ChangesReply, fetched: Option<seq<Email>>, fault: Fault):
    Ending
  {
    if token.Unset? then if initial.Some? then Initialised else NothingDone
    else
      match reply
      case CannotCalculate => Reset
      case Unavailable => Postponed
      case Got(c) =>
        if c.created + c.updated != [] && fetched.None? then Abandoned
        else if Breaks(fault, |Fetched(c, fetched)|, |c.destroyed|) then Abandoned
        else Committed
  }

  /** The row after a job that applied nothing; an abandoned one leaves it marked as syncing. */
  function AfterEnding(sync: map<string, SyncState>, mailbox: string, ending: Ending, initial: nat):
    map<string, SyncState>
  {
    match ending
    case Initialised => WithState(sync, mailbox, SyncState(At(initial), Idle))
    case Reset => WithState(sync, mailbox, SyncState(Unset, Errored))
    case NothingDone => WithStatus(sync, mailbox, Idle)
    case Postponed => WithStatus(sync, mailbox, Idle)
    case _ => WithStatus(sync, mailbox, Syncing)
  }

  /** An id no thread has yet, as the database generates one. */
  method NewId(threads: set<ThreadId>) returns (id: ThreadId)
    ensures id !in threads
  {
    var longest := 0;
    var todo := threads;
    while todo != {}
      invariant todo <= threads && longest >= 0
      invariant forall t <- threads - todo :: |t| <= longest
      decreases todo
    {
      var t :| t in todo;
      todo := todo - {t};
      longest := if |t| > longest then |t| else longest;
    }
    assert threads - {} == threads;
    id := seq(longest + 1, _ => '0');
  }

  method ProcessEmail(repo: MailRepository.Repository, mailbox: string, e: Email, now: int) returns (ghost ev: Event)
    modifies repo
    ensures ev.account == mailbox && ev.email == e && Leads(old(repo.View()), ev, repo.View())
  {
    hide Routes, Synced;
    var id := NewId(repo.threads.Keys);
    ghost var route := repo.ProcessEmailSync(mailbox, e, now, id);
    ev := Event(mailbox, e, now, route);
  }

  /** The email loop of a batch; it stops before the statement that fails. */
  method ProcessEmails(repo: MailRepository.Repository, mailbox: string, emails: seq<Email>, now: int, fault: Fault)
    returns (ok: bool, ghost states: seq<Store>, ghost evs: seq<Event>)
    modifies repo
    ensures ok <==> !(fault.AtEmail? && fault.index < |emails|)
    ensures ok ==> Synchronises(states, evs, mailbox, emails) && states[0] == old(repo.View())
                   && states[|evs|] == repo.View()
  {
    hide Leads;
    states, evs := [repo.View()], [];
    for i := 0 to |emails|
      invariant Synchronises(states, evs, mailbox, emails[..i]) && states[0] == old(repo.View())
      invariant states[i] == repo.View()
      invariant fault.AtEmail? ==> fault.index >= i
    {
      if fault == AtEmail(i) {
        return false, states, evs;
      }
      ghost var ev := ProcessEmail(repo, mailbox, emails[i], now);
      SynchronisesNext(states, evs, mailbox, emails[..i], ev, repo.View());
      assert emails[..i] + [emails[i]] == emails[..i + 1];
      states, evs := states + [repo.View()], evs + [ev];
    }
    assert emails[..|emails|] == emails;
    ok := true;
  }

  class Worker {
    const repo: MailRepository.Repository
    var sync: map<string, SyncState>
    var outbox: seq<OutboxEvent>

    constructor (repo: MailRepository.Repository)
      ensures this.repo == repo && sync == map[] && outbox == []
    {
      this.repo := repo;
      sync, outbox := map[], [];
    }

    ghost function View(): Db
      reads this, repo
    {
      Db(repo.View(), sync, outbox)
    }

    method SetStatus(mailbox: string, status: SyncStatus)
      modifies this`sync
      ensures sync == WithStatus(old(sync), mailbox, status)
    {
      if mailbox in sync {
        sync := sync[mailbox := sync[mailbox].(status := status)];
      }
    }

    method SetState(mailbox: string, s: SyncState)
      modifies this`sync
      ensures sync == WithState(old(sync), mailbox, s)
    {
      if mailbox in sync {
        sync := sync[mailbox := s];
      }
    }

    method DeleteMessages(mailbox: string, ids: seq<string>, fault: Fault) returns (ok: bool)
      modifies repo
      ensures ok <==> !(fault.AtDelete? && fault.index < |ids|)
      ensures ok ==> repo.View() == Purged(old(repo.View()), mailbox, ids)
      ensures ok ==> repo.messages == old(repo.messages) - set id <- ids :: Key(mailbox, id)
      ensures ok ==> forall x: Slot ::
                       x in repo.slots <==>
                       x in old(repo.slots) && !(x.message.account == mailbox && x.message.emailId in ids)
      ensures ok ==> forall x <- repo.slots :: repo.slots[x] == old(repo.slots)[x]
      ensures ok ==> repo.threads == old(repo.threads)
    {
      PurgedNothing(repo.View(), mailbox);
      for i := 0 to |ids|
        invariant repo.View() == Purged(old(repo.View()), mailbox, ids[..i])
        invariant fault.AtDelete? ==> fault.index >= i
      {
        if fault == AtDelete(i) {
          return false;
        }
        PurgedOneMore(old(repo.View()), mailbox, ids[..i], ids[i]);
        assert ids[..i] + [ids[i]] == ids[..i + 1];
        var k := Key(mailbox, ids[i]);
        repo.messages := repo.messages - {k};
        repo.slots := map x <- repo.slots | x.message != k :: repo.slots[x];
      }
      assert ids[..|ids|] == ids;
      ok := true;
    }

    method EmitEvents(user: string, eventType: EventType, ids: seq<string>)
      modifies this`outbox
      ensures outbox == old(outbox) + Notices(user, eventType, ids)
      ensures |outbox| == |old(outbox)| + |ids| && old(outbox) <= outbox
      ensures forall i :: 0 <= i < |ids| ==> outbox[|old(outbox)| + i] == OutboxEvent(user, eventType, ids[i])
    {
      for i := 0 to |ids|
        invariant outbox == old(outbox) + Notices(user, eventType, ids[..i])
      {
        outbox := outbox + [OutboxEvent(user, eventType, ids[i])];
        assert Notices(user, eventType, ids[..i + 1]) ==
               Notices(user, eventType, ids[..i]) + [OutboxEvent(user, eventType, ids[i])];
      }
      assert ids[..|ids|] == ids;
    }

    /** The batch transaction: applied whole, or rolled back without a trace. */
    method ApplyBatch(mailbox: string, user: string, c: Changes, emails: seq<Email>, now: int, fault: Fault)
      returns (ok: bool)
      modifies this, repo
      ensures ok <==> !Breaks(fault, |emails|, |c.destroyed|)
      ensures ok ==> Applied(old(View()), View(), mailbox, user, c, emails)
      ensures !ok ==> View() == old(View())
    {
      if fault.AtBegin? {
        return false;
      }
      // The transaction works on the tables in place; a rollback puts these back.
      var threads, messages, slots := repo.threads, repo.messages, repo.slots;
      ghost var states, evs;
      ok, states, evs := ProcessEmails(repo, mailbox, emails, now, fault);
      if ok {
        ok := DeleteMessages(mailbox, c.destroyed, fault);
      }
      if ok && fault.AtCommit? {
        ok := false;
      }
      if !ok {
        repo.threads, repo.messages, repo.slots := threads, messages, slots;
        return;
      }
      EmitEvents(user, MessageCreated, c.created);
      EmitEvents(user, MessageUpdated, c.updated);
      EmitEvents(user, MessageDeleted, c.destroyed);
      SetState(mailbox, SyncState(c.newToken, Idle));
      AppliedBy(old(View()), View(), mailbox, user, c, emails, states, evs);
    }

    /**
     One job for one mailbox, with the token read when it was picked. A batch is applied whole or not at all, and the
     answers alone decide how the job ends.
     */
    method ProcessSyncJob(mailbox: string, user: string, token: Token, initial: Option<nat>, reply: ChangesReply,
                          fetched: Option<seq<Email>>, now: int, fault: Fault) returns (ending: Ending)
      modifies this, repo
      ensures ending == EndingOf(token, initial, reply, fetched, fault)
      ensures ending.Committed? ==>
                Applied(old(View()), View(), mailbox, user, reply.changes,
                        if reply.changes.created + reply.changes.updated == [] || fetched.None? then []
                        else fetched.value)
      ensures !ending.Committed? ==>
                && repo.View() == old(repo.View()) && outbox == old(outbox)
                && sync == AfterEnding(old(sync), mailbox, ending, initial.GetOr(0))
      ensures ending.Committed? <==>
              && token.At? && reply.Got?
              && (reply.changes.created + reply.changes.updated == [] || fetched.Some?)
              && match fault
                 case NoFault => true
                 case AtEmail(i) =>
                   i >= if reply.changes.created + reply.changes.updated == [] then 0 else |fetched.value|
                 case AtDelete(i) => i >= |reply.changes.destroyed|
                 case _ => false
      ensures mailbox !in old(sync) ==> sync == old(sync)
      ensures mailbox in old(sync) ==>
                var was := old(sync)[mailbox];
                && (token.Unset? && initial.Some? ==> sync == old(sync)[mailbox := SyncState(At(initial.value), Idle)])
                && (token.Unset? && initial.None? ==> sync == old(sync)[mailbox := SyncState(was.token, Idle)])
                && (token.At? && reply.CannotCalculate? ==> sync == old(sync)[mailbox := SyncState(Unset, Errored)])
                && (token.At? && reply.Unavailable? ==> sync == old(sync)[mailbox := SyncState(was.token, Idle)])
                && (token.At? && reply.Got? && ending.Committed? ==>
                      sync == old(sync)[mailbox := SyncState(reply.changes.newToken, Idle)])
                && (token.At? && reply.Got? && !ending.Committed? ==>
                      sync == old(sync)[mailbox := SyncState(was.token, Syncing)])
      ensures mailbox in old(sync) && old(sync)[mailbox].status.Idle? && token.At? && reply.Unavailable? ==>
                View() == old(View())
    {
      EndingRows(sync, mailbox, token, initial, reply, fetched, fault);
      hide AfterEnding, Breaks, Applied;
      SetStatus(mailbox, Syncing);
      if token.Unset? {
        if initial.Some? {
          SetState(mailbox, SyncState(At(initial.value), Idle));
          return Initialised;
        }
        SetStatus(mailbox, Idle);
        return NothingDone;
      }
      if reply.CannotCalculate? {
        SetState(mailbox, SyncState(Unset, Errored));
        return Reset;
      }
      if reply.Unavailable? {
        SetStatus(mailbox, Idle);
        return Postponed;
      }
      var c := reply.changes;
      var emails: seq<Email> := [];
      if c.created + c.updated != [] {
        if fetched.None? {
          return Abandoned;
        }
        emails := fetched.value;
      }
      ghost var before := View();
      var ok := ApplyBatch(mailbox, user, c, emails, now, fault);
      if ok {
        AppliedAnyStatus(old(View()), before, View(), mailbox, user, c, emails, Syncing);
        AppliedToken(old(View()), View(), mailbox, user, c, emails);
        return Committed;
      }
      return Abandoned;
    }
  }

  /** What a job that applied nothing leaves in its mailbox's row, by the answers it was given. */
  lemma EndingRows(sync: map<string, SyncState>, mailbox: string, token: Token, initial: Option<nat>,
                   reply: ChangesReply, fetched: Option<seq<Email>>, fault: Fault)
    ensures var ending := EndingOf(token, initial, reply, fetched, fault);
            var after := AfterEnding(sync, mailbox, ending, initial.GetOr(0));
            && (ending.Committed? <==>
                && token.At? && reply.Got?
                && (reply.changes.created + reply.changes.updated == [] || fetched.Some?)
                && match fault
                   case NoFault => true
                   case AtEmail(i) =>
                     i >= if reply.changes.created + reply.changes.updated == [] then 0 else |fetched.value|
                   case AtDelete(i) => i >= |reply.changes.destroyed|
                   case _ => false)
            && (mailbox !in sync ==> after == sync)
            && (mailbox in sync ==>
                  var was := sync[mailbox];
                  && (token.Unset? && initial.Some? ==> after == sync[mailbox := SyncState(At(initial.value), Idle)])
                  && (token.Unset? && initial.None? ==> after == sync[mailbox := SyncState(was.token, Idle)])
                  && (token.At? && reply.CannotCalculate? ==> after == sync[mailbox := SyncState(Unset, Errored)])
                  && (token.At? && reply.Unavailable? ==> after == sync[mailbox := SyncState(was.token, Idle)])
                  && (token.At? && reply.Got? && !ending.Committed? ==>
                        after == sync[mailbox := SyncState(was.token, Syncing)])
                  && (was.status.Idle? && token.At? && reply.Unavailable? ==> after == sync))
  {}

  lemma AppliedBy(db: Db, db': Db, mailbox: string, user: string, c: Changes, emails: seq<Email>,
                  states: seq<Store>, evs: seq<Event>)
    requires Synchronises(states, evs, mailbox, emails) && states[0] == db.store
    requires db'.store == Purged(states[|evs|], mailbox, c.destroyed)
    requires db'.sync == WithState(db.sync, mailbox, SyncState(c.newToken, Idle))
    requires db'.outbox == db.outbox + Notices(user, MessageCreated, c.created)
                           + Notices(user, MessageUpdated, c.updated) + Notices(user, MessageDeleted, c.destroyed)
    ensures Applied(db, db', mailbox, user, c, emails)
  {
    hide Synchronises, Purged, Notices;
  }

  lemma AppliedToken(db: Db, db': Db, mailbox: string, user: string, c: Changes, emails: seq<Email>)
    requires Applied(db, db', mailbox, user, c, emails)
    ensures db'.sync == WithState(db.sync, mailbox, SyncState(c.newToken, Idle))
  {
  }

  /** A committed batch leaves one event per reported id, in the order of the lists, and no row of a destroyed email. */
  lemma AppliedRows(db: Db, db': Db, mailbox: string, user: string, c: Changes, emails: seq<Email>)
    requires Applied(db, db', mailbox, user, c, emails)
    ensures var n, m, k := |db.outbox|, |c.created|, |c.updated|;
            && |db'.outbox| == n + m + k + |c.destroyed| && db.outbox <= db'.outbox
            && (forall i :: 0 <= i < m ==> db'.outbox[n + i] == OutboxEvent(user, MessageCreated, c.created[i]))
            && (forall i :: 0 <= i < k ==> db'.outbox[n + m + i] == OutboxEvent(user, MessageUpdated, c.updated[i]))
            && (forall i :: 0 <= i < |c.destroyed| ==>
                  db'.outbox[n + m + k + i] == OutboxEvent(user, MessageDeleted, c.destroyed[i]))
    ensures forall id <- c.destroyed :: Key(mailbox, id) !in db'.store.messages
    ensures forall x <- db'.store.slots | x.message.account == mailbox :: x.message.emailId !in c.destroyed
  {
    hide Synchronises;
  }

  /** Marking the mailbox as syncing beforehand leaves no trace in an applied batch. */
  lemma AppliedAnyStatus(db: Db, syncing: Db, db': Db, mailbox: string, user: string, c: Changes, emails: seq<Email>,
                         status: SyncStatus)
    requires syncing.store == db.store && syncing.outbox == db.outbox && Applied(syncing, db', mailbox, user, c, emails)
    requires syncing.sync == WithStatus(db.sync, mailbox, status)
    ensures Applied(db, db', mailbox, user, c, emails)
  {
    hide Synchronises, Purged, Notices;
  }

  /** The fault strikes a transaction over so many emails and deletions. */
  predicate Breaks(fault: Fault, emails: nat, deletions: nat) {
    match fault
    case NoFault => false
    case AtBegin => true
    case AtEmail(i) => i < emails
    case AtDelete(i) => i < deletions
    case AtCommit => true
  }

  lemma SynchronisesNext(states: seq<Store>, evs: seq<Event>, account: string, emails: seq<Email>, ev: Event, s: Store)
    requires Synchronises(states, evs, account, emails)
    requires Leads(states[|evs|], ev, s) && ev.account == account
    ensures Synchronises(states + [s], evs + [ev], account, emails + [ev.email])
  {
    hide Leads;
    var states', evs' := states + [s], evs + [ev];
    forall i {:trigger evs'[i]} | 0 <= i < |evs'|
      ensures Leads(states'[i], evs'[i], states'[i + 1])
    {
      if i < |evs| {
        assert evs'[i] == evs[i];
      }
    }
  }

  lemma PurgedNothing(s: Store, account: string)
    ensures Purged(s, account, []) == s
  {}

  lemma PurgedOneMore(s: Store, account: string, ids: seq<string>, id: string)
    ensures var p, q := Purged(s, account, ids), Purged(s, account, ids + [id]);
            var k := Key(account, id);
            && q.messages == p.messages - {k}
            && q.slots == (map x <- p.slots | x.message != k :: p.slots[x])
            && q.threads == p.threads
  {}
}
