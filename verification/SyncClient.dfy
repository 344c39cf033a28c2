/** A client's own sync request: it asks the mail server for changes and moves the mailbox's token, storing no email. */
module SyncClient {
  import opened Wrappers
  import opened SyncWorker

  /** The answer to one changes call of the request. */
  datatype Reply = NewState(place: nat) | MustResync | Failed

  /** What the request writes to the mailbox's row. */
  datatype Write = Marked | Moved(place: nat) | Resync | Refused

  function Written(since: Token, write: Write): SyncState {
    match write
    case Marked => SyncState(since, Syncing)
    case Moved(place) => SyncState(At(place), Idle)
    case Resync => SyncState(Unset, Errored)
    case Refused => SyncState(since, Errored)
  }

  /** How the request ends: the first call that fails decides, and the call for emails has the last word. */
  function EndOf(since: Token, mailboxes: Reply, threads: Reply, emails: Reply, current: Option<nat>): Write {
    if since.Unset? then if current.Some? then Moved(current.value) else Refused
    else
      var decisive := if !mailboxes.NewState? then mailboxes else if !threads.NewState? then threads else emails;
      match decisive
      case NewState(place) => Moved(place)
      case MustResync => Resync
      case Failed => Refused
  }

  class Service {
    var sync: map<string, SyncState>

    /** Inserts or overwrites the row; an error of the database is only logged. */
    method UpdateSyncState(mailbox: string, s: SyncState, written: bool)
      modifies this
      ensures sync == if written then old(sync)[mailbox := s] else old(sync)
    {
      if written {
        sync := sync[mailbox := s];
      }
    }

    /** A call failed: the token is dropped if the server asks for a resync, and kept otherwise. */
    method Stop(mailbox: string, since: Token, reply: Reply, written: bool)
      requires !reply.NewState?
      modifies this
      ensures var s := SyncState(if reply.MustResync? then Unset else since, Errored);
              sync == if written then old(sync)[mailbox := s] else old(sync)
    {
      if reply.MustResync? {
        UpdateSyncState(mailbox, SyncState(Unset, Errored), written);
      } else {
        UpdateSyncState(mailbox, SyncState(since, Errored), written);
      }
    }

    /** One request, whatever the row's status; marked and ended tell which of its two writes succeed. */
    method SyncMail(mailbox: string, mailboxes: Reply, threads: Reply, emails: Reply, current: Option<nat>,
                    marked: bool, ended: bool) returns (ok: bool)
      modifies this
      ensures var since := if mailbox in old(sync) then old(sync)[mailbox].token else Unset;
              var end := EndOf(since, mailboxes, threads, emails, current);
              && ok == end.Moved?
              && sync == if ended then old(sync)[mailbox := Written(since, end)]
                         else if marked then old(sync)[mailbox := Written(since, Marked)]
                         else old(sync)
      ensures !ended ==>
                var since := if mailbox in old(sync) then old(sync)[mailbox].token else Unset;
                sync == if marked then old(sync)[mailbox := SyncState(since, Syncing)] else old(sync)
      ensures mailbox !in old(sync) || old(sync)[mailbox].token.Unset? ==>
                && ok == current.Some?
                && (ended ==> sync == old(sync)[mailbox := if current.Some? then SyncState(At(current.value), Idle)
                                                           else SyncState(Unset, Errored)])
      ensures mailbox in old(sync) && old(sync)[mailbox].token.At? ==>
                var since := old(sync)[mailbox].token;
                var resync := mailboxes.MustResync? || (mailboxes.NewState? && threads.MustResync?)
                              || (mailboxes.NewState? && threads.NewState? && emails.MustResync?);
                && ok == (mailboxes.NewState? && threads.NewState? && emails.NewState?)
                && (ended && ok ==> sync == old(sync)[mailbox := SyncState(At(emails.place), Idle)])
                && (ended && !ok ==> sync == old(sync)[mailbox := SyncState(if resync then Unset else since, Errored)])
    {
      var since := if mailbox in sync then sync[mailbox].token else Unset;
      UpdateSyncState(mailbox, SyncState(since, Syncing), marked);
      var place := 0;
      if since.Unset? {
        if current.None? {
          UpdateSyncState(mailbox, SyncState(Unset, Errored), ended);
          return false;
        }
        place := current.value;
      } else {
        if !mailboxes.NewState? {
          Stop(mailbox, since, mailboxes, ended);
          return false;
        }
        if !threads.NewState? {
          Stop(mailbox, since, threads, ended);
          return false;
        }
        if !emails.NewState? {
          Stop(mailbox, since, emails, ended);
          return false;
        }
        place := emails.place;
      }
      UpdateSyncState(mailbox, SyncState(At(place), Idle), ended);
      ok := true;
    }
  }
}
