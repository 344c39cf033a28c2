/**
 The local message set as a mirror of the server's emails, behind a state token (RFC 8620, section 5.2). The server
 changes at any moment, also between the changes call and the fetch; jobs fail or crash anywhere. Clients' own sync
 requests and the re-activation of an account write the token too, without applying anything.
 */
module Mirror {
  import opened Wrappers
  import opened MailStore
  import opened ThreadInvariants
  import opened SyncWorker
  import opened SyncClient

  /**
   server[n] is the set of email ids at state n; job is the token the worker's job for the mailbox was picked with,
   and clients the ones that clients' requests have read.
   */
  datatype World = World(server: seq<set<string>>, db: Db, job: Option<Token>, clients: map<nat, Token>)

  datatype Step =
    | ServerChanges(ids: set<string>)
    | Pick
    | Mark
    | Commit(changes: Changes, emails: seq<Email>, fetchedAt: nat, db: Db)
    | Finish(ending: Ending, place: nat)
    | ClientReads(c: nat)
    | ClientWrites(c: nat, write: Write)
    | Activates(place: nat)
    | OtherMailbox(db: Db)

  predicate IsCurrent(server: seq<set<string>>, n: nat) {
    |server| == n + 1
  }

  /** Email ids are never reused: an email that is gone stays gone. */
  predicate NoReuse(server: seq<set<string>>) {
    forall i, j, k, x | 0 <= i < j < k < |server| && x in server[i] && x !in server[j] :: x !in server[k]
  }

  function LocalIds(s: Store, account: string): set<string> {
    set k <- s.messages | k.account == account :: k.emailId
  }

  /** What the server may report between states m and n: every net change, and possibly transient ones. */
  predicate Reports(server: seq<set<string>>, m: nat, c: Changes) {
    && c.newToken.At? && m <= c.newToken.place < |server|
    && var n := c.newToken.place;
       && server[n] - server[m] <= (set x <- c.created)
       && server[m] - server[n] <= (set x <- c.destroyed)
       && (forall x <- c.destroyed :: x !in server[n])
       && (forall x <- c.created + c.updated :: exists i :: m <= i <= n && x in server[i])
  }

  /** A fetch at state n returns the requested emails that exist then. */
  predicate Fetches(server: seq<set<string>>, n: nat, c: Changes, emails: seq<Email>) {
    && n < |server| && c.newToken.At? && c.newToken.place <= n
    && (set e <- emails :: e.id) == (set x <- c.created + c.updated | x in server[n])
  }

  function Rewritten(w: World, mailbox: string, s: SyncState): World {
    w.(db := w.db.(sync := w.db.sync[mailbox := s]))
  }

  ghost predicate Next(w: World, w': World, step: Step, mailbox: string, user: string) {
    match step
    case ServerChanges(ids) =>
      w' == w.(server := w.server + [ids]) && NoReuse(w'.server)
    case Pick =>
      // Only idle mailboxes are picked, and by one worker.
      && w.job.None? && mailbox in w.db.sync && w.db.sync[mailbox].status.Idle?
      && w' == w.(job := Some(w.db.sync[mailbox].token))
    case Mark =>
      w.job.Some? && w' == w.(db := w.db.(sync := WithStatus(w.db.sync, mailbox, Syncing)))
    case Commit(c, emails, at, db) =>
      && w.job.Some? && w.job.value.At? && w.job.value.place < |w.server|
      && Reports(w.server, w.job.value.place, c) && Fetches(w.server, at, c, emails)
      && Applied(w.db, db, mailbox, user, c, emails)
      && w' == w.(job := None, db := db)
    case Finish(ending, place) =>
      && w.job.Some? && !ending.Committed? && place < |w.server|
      && (ending.Initialised? || ending.NothingDone? ==> w.job.value.Unset?)
      && (ending.Reset? || ending.Postponed? ==> w.job.value.At?)
      && w' == w.(job := None,
                  db := w.db.(sync := if ending.Abandoned? then w.db.sync
                                      else AfterEnding(w.db.sync, mailbox, ending, place)))
    case ClientReads(c) =>
      mailbox in w.db.sync && w' == w.(clients := w.clients[c := w.db.sync[mailbox].token])
    case ClientWrites(c, write) =>
      && c in w.clients && (write.Moved? ==> write.place < |w.server|)
      && w' == Rewritten(w, mailbox, Written(w.clients[c], write))
    case Activates(place) =>
      place < |w.server| && w' == Rewritten(w, mailbox, SyncState(At(place), Idle))
    case OtherMailbox(db) =>
      && SameRows(w.db.store, db.store, mailbox) && mailbox in w.db.sync && mailbox in db.sync
      && db.sync[mailbox] == w.db.sync[mailbox] && w' == w.(db := db)
  }

  ghost predicate IsBehavior(worlds: seq<World>, steps: seq<Step>, mailbox: string, user: string) {
    && |worlds| == |steps| + 1
    && forall i {:trigger steps[i]} :: 0 <= i < |steps| ==> Next(worlds[i], worlds[i + 1], steps[i], mailbox, user)
  }

  /** The local ids are those of state n, but for emails that have been destroyed since. */
  predicate Agrees(w: World, mailbox: string, n: nat)
    requires n < |w.server|
  {
    var local := LocalIds(w.db.store, mailbox);
    local <= w.server[n] && w.server[n] * w.server[|w.server| - 1] <= local
  }

  predicate Placed(w: World, token: Token) {
    token.At? ==> token.place < |w.server|
  }

  /** The store agrees with the token, and with the token of the job underway. */
  predicate Mirrors(w: World, mailbox: string) {
    && NoReuse(w.server) && w.server != [] && mailbox in w.db.sync
    && (forall c <- w.clients :: Placed(w, w.clients[c]))
    && var token, job := w.db.sync[mailbox].token, w.job.GetOr(Unset);
       && Placed(w, token) && (token.At? ==> Agrees(w, mailbox, token.place))
       && Placed(w, job) && (job.At? ==> Agrees(w, mailbox, job.place))
  }

  /** The local ids after a committed batch: the old and the fetched ones, less the destroyed ones. */
  lemma AppliedIds(db: Db, db': Db, mailbox: string, user: string, c: Changes, emails: seq<Email>)
    requires Applied(db, db', mailbox, user, c, emails)
    ensures LocalIds(db'.store, mailbox)
         == (LocalIds(db.store, mailbox) + set e <- emails :: e.id) - set x <- c.destroyed
  {
    hide Leads;
    var states: seq<Store>, evs: seq<Event> :|
      Synchronises(states, evs, mailbox, emails) && states[0] == db.store
                       && db'.store == Purged(states[|evs|], mailbox, c.destroyed);
    Conserved(states, evs, |evs|);
    assert evs[..|evs|] == evs;
    ArrivedIds(evs, mailbox, emails);
    UnionIds(states[|evs|].messages.Keys, db.store.messages.Keys, Arrived(evs), mailbox);
    PurgedIds(states[|evs|], mailbox, c.destroyed);
  }

  function IdsOf(keys: set<Key>, account: string): set<string> {
    set k <- keys | k.account == account :: k.emailId
  }

  lemma UnionIds(all: set<Key>, a: set<Key>, b: set<Key>, account: string)
    requires all == a + b
    ensures IdsOf(all, account) == IdsOf(a, account) + IdsOf(b, account)
  {}

  lemma ArrivedIds(evs: seq<Event>, account: string, emails: seq<Email>)
    requires |evs| == |emails| && forall i :: 0 <= i < |evs| ==> evs[i].account == account && evs[i].email == emails[i]
    ensures IdsOf(Arrived(evs), account) == set e <- emails :: e.id
  {
    forall x | x in (set e <- emails :: e.id)
      ensures x in IdsOf(Arrived(evs), account)
    {
      var i :| 0 <= i < |emails| && emails[i].id == x;
      assert evs[i] in evs && KeyOf(evs[i]) in Arrived(evs);
    }
  }

  lemma PurgedIds(s: Store, account: string, ids: seq<string>)
    ensures LocalIds(Purged(s, account, ids), account) == LocalIds(s, account) - set x <- ids
    ensures LocalIds(s, account) == IdsOf(s.messages.Keys, account)
  {
    var p := Purged(s, account, ids);
    forall x | x in LocalIds(s, account) && x !in ids
      ensures x in LocalIds(p, account)
    {
      assert Key(account, x) in p.messages;
    }
  }

  /** A batch takes a mirror of state m to a mirror of state n. */
  lemma BatchMirrors(server: seq<set<string>>, m: nat, c: Changes, at: nat, emails: seq<Email>,
                     local: set<string>, local': set<string>)
    requires NoReuse(server) && m < |server| && Reports(server, m, c) && Fetches(server, at, c, emails)
    requires local <= server[m] && server[m] * server[|server| - 1] <= local
    requires local' == (local + set e <- emails :: e.id) - set x <- c.destroyed
    ensures local' <= server[c.newToken.place] && server[c.newToken.place] * server[|server| - 1] <= local'
  {
    var n, last := c.newToken.place, |server| - 1;
    forall x | x in local'
      ensures x in server[n]
    {
      if x !in local {
        assert x in c.created + c.updated && x in server[at];
        var i :| m <= i <= n && x in server[i];
      }
    }
    forall x | x in server[n] && x in server[last]
      ensures x in local'
    {
      if x !in server[m] {
        assert x in server[n] - server[m];
        assert x in c.created + c.updated && x in server[at];
      }
    }
  }

  lemma SameIds(s: Store, s': Store, account: string)
    requires SameRows(s, s', account)
    ensures LocalIds(s', account) == LocalIds(s, account)
  {}

  /** What the server destroys later leaves the agreement with an earlier state intact. */
  lemma GrowthAgrees(w: World, w': World, ids: set<string>, mailbox: string, n: nat)
    requires w' == w.(server := w.server + [ids]) && NoReuse(w'.server) && n < |w.server| && Agrees(w, mailbox, n)
    ensures Agrees(w', mailbox, n)
  {
    var last := |w.server| - 1;
    assert w'.server[last] == w.server[last] && w'.server[last + 1] == ids && w'.server[n] == w.server[n];
    forall x | x in w'.server[n] && x in ids
      ensures x in LocalIds(w.db.store, mailbox)
    {
      assert n < last ==> x in w'.server[last];
    }
  }

  lemma CommitMirrors(
      w: World, w': World, c: Changes, emails: seq<Email>, at: nat, db: Db, mailbox: string, user: string)
    requires Mirrors(w, mailbox) && Next(w, w', Commit(c, emails, at, db), mailbox, user)
    ensures Mirrors(w', mailbox)
  {
    hide Applied, Reports, Fetches, NoReuse, LocalIds;
    var place := w.job.value.place;
    AppliedToken(w.db, db, mailbox, user, c, emails);
    ReportedPlace(w.server, place, c);
    AppliedIds(w.db, db, mailbox, user, c, emails);
    BatchMirrors(w.server, place, c, at, emails, LocalIds(w.db.store, mailbox), LocalIds(db.store, mailbox));
  }

  lemma ReportedPlace(server: seq<set<string>>, m: nat, c: Changes)
    requires Reports(server, m, c)
    ensures c.newToken.At? && m <= c.newToken.place < |server|
  {
  }

  // ----- Moving the token without applying anything -----

  /** The state such a step moves the token to. */
  function MovesTo(w: World, step: Step): Option<nat> {
    match step
    case ClientWrites(c, write) =>
      var token := if c in w.clients then Written(w.clients[c], write).token else Unset;
      if token.At? then Some(token.place) else None
    case Activates(place) => Some(place)
    case Finish(ending, place) => if ending.Initialised? then Some(place) else None
    case _ => None
  }

  predicate SafeMove(w: World, step: Step, mailbox: string) {
    MovesTo(w, step).Some? ==>
      MovesTo(w, step).value < |w.server| && Agrees(w, mailbox, MovesTo(w, step).value)
  }

  /** A step leaves a mirror behind if and only if the store agrees with the state it moves the token to, if any. */
  lemma StepMirrorsIff(w: World, w': World, step: Step, mailbox: string, user: string)
    requires Mirrors(w, mailbox) && Next(w, w', step, mailbox, user)
    ensures Mirrors(w', mailbox) <==> SafeMove(w, step, mailbox)
  {
    hide Applied, Reports, Fetches, NoReuse, LocalIds;
    match step
    case Commit(c, emails, at, db) => CommitMirrors(w, w', c, emails, at, db, mailbox, user);
    case OtherMailbox(db) => SameIds(w.db.store, db.store, mailbox);
    case ServerChanges(ids) => GrowthMirrors(w, w', ids, mailbox, user);
    case _ =>
  }

  lemma GrowthMirrors(w: World, w': World, ids: set<string>, mailbox: string, user: string)
    requires Mirrors(w, mailbox) && Next(w, w', ServerChanges(ids), mailbox, user)
    ensures Mirrors(w', mailbox)
  {
    hide Agrees, NoReuse;
    var token, job := w.db.sync[mailbox].token, w.job.GetOr(Unset);
    if token.At? {
      GrowthAgrees(w, w', ids, mailbox, token.place);
    }
    if job.At? {
      GrowthAgrees(w, w', ids, mailbox, job.place);
    }
  }

  /**
   From a state the store agrees with, a later one is agreed with exactly when nothing is skipped: no email that came in
   between is still on the server, and no stored one went.
   */
  lemma AgreesIffNothingSkipped(w: World, mailbox: string, m: nat, n: nat)
    requires m < |w.server| && n < |w.server| && Agrees(w, mailbox, m)
    ensures Agrees(w, mailbox, n) <==>
            && (forall x <- w.server[n] - w.server[m] :: x !in w.server[|w.server| - 1])
            && (forall x <- LocalIds(w.db.store, mailbox) :: x in w.server[n])
  {
    var local, before, after := LocalIds(w.db.store, mailbox), w.server[m], w.server[n];
    var last := w.server[|w.server| - 1];
    assert after * last == (before * last) * after + (after - before) * last;
    if after * last <= local {
      forall x <- after - before ensures x !in last {
        assert x in last ==> x in after * last;
      }
    }
    if forall x <- after - before :: x !in last {
      assert (after - before) * last == {};
    }
  }

  /** A client's sync keeps the mirror if and only if it skips nothing that is on the server or stored. */
  lemma ClientSyncMirrorsIff(w: World, w': World, c: nat, m: nat, n: nat, mailbox: string, user: string)
    requires Mirrors(w, mailbox) && w.db.sync[mailbox].token == At(m)
    requires Next(w, w', ClientWrites(c, Moved(n)), mailbox, user)
    ensures Mirrors(w', mailbox) <==>
            && (forall x <- w.server[n] - w.server[m] :: x !in w.server[|w.server| - 1])
            && (forall x <- LocalIds(w.db.store, mailbox) :: x in w.server[n])
  {
    StepMirrorsIff(w, w', ClientWrites(c, Moved(n)), mailbox, user);
    AgreesIffNothingSkipped(w, mailbox, m, n);
  }

  // ----- Whole runs -----

  predicate SafeMoves(worlds: seq<World>, steps: seq<Step>, mailbox: string, n: nat)
    requires |worlds| == |steps| + 1 && n <= |steps|
  {
    forall i {:trigger steps[i]} :: 0 <= i < n ==> SafeMove(worlds[i], steps[i], mailbox)
  }

  lemma {:induction false} MirrorsAt(worlds: seq<World>, steps: seq<Step>, mailbox: string, user: string, n: nat)
    requires IsBehavior(worlds, steps, mailbox, user) && n <= |steps| && Mirrors(worlds[0], mailbox)
    requires SafeMoves(worlds, steps, mailbox, n)
    ensures Mirrors(worlds[n], mailbox)
  {
    hide Mirrors, Next, SafeMove;
    if n > 0 {
      MirrorsAt(worlds, steps, mailbox, user, n - 1);
      assert Next(worlds[n - 1], worlds[n], steps[n - 1], mailbox, user);
      StepMirrorsIff(worlds[n - 1], worlds[n], steps[n - 1], mailbox, user);
    }
  }

  /**
   The store mirrors the server at every moment of a run, with crashes anywhere, if and only if no client's sync, no
   re-activation and no initialisation ever moved the token to a state the store did not agree with.
   */
  lemma AlwaysMirrorsIff(worlds: seq<World>, steps: seq<Step>, mailbox: string, user: string)
    requires IsBehavior(worlds, steps, mailbox, user) && Mirrors(worlds[0], mailbox)
    ensures (forall n :: 0 <= n <= |steps| ==> Mirrors(worlds[n], mailbox))
            <==> SafeMoves(worlds, steps, mailbox, |steps|)
  {
    hide Mirrors, Next, SafeMove;
    if SafeMoves(worlds, steps, mailbox, |steps|) {
      forall n | 0 <= n <= |steps| ensures Mirrors(worlds[n], mailbox) {
        MirrorsAt(worlds, steps, mailbox, user, n);
      }
    }
    if forall n :: 0 <= n <= |steps| ==> Mirrors(worlds[n], mailbox) {
      forall i | 0 <= i < |steps| ensures SafeMove(worlds[i], steps[i], mailbox) {
        assert Next(worlds[i], worlds[i + 1], steps[i], mailbox, user);
        StepMirrorsIff(worlds[i], worlds[i + 1], steps[i], mailbox, user);
      }
    }
  }

  /** The token never runs ahead: every email of the token's state that still exists is stored. */
  lemma TokenNotAhead(worlds: seq<World>, steps: seq<Step>, mailbox: string, user: string, n: nat, x: string)
    requires IsBehavior(worlds, steps, mailbox, user) && n <= |steps| && Mirrors(worlds[0], mailbox)
    requires SafeMoves(worlds, steps, mailbox, n)
    requires mailbox in worlds[n].db.sync && worlds[n].db.sync[mailbox].token.At?
    requires worlds[n].db.sync[mailbox].token.place < |worlds[n].server|
    requires x in worlds[n].server[worlds[n].db.sync[mailbox].token.place]
    requires x in worlds[n].server[|worlds[n].server| - 1]
    ensures Key(mailbox, x) in worlds[n].db.store.messages
  {
    hide Next, SafeMove;
    MirrorsAt(worlds, steps, mailbox, user, n);
    var w := worlds[n];
    assert x in w.server[w.db.sync[mailbox].token.place] * w.server[|w.server| - 1];
    assert x in LocalIds(w.db.store, mailbox);
  }

  /** Once the token is the server's current state, the stored ids are exactly the server's. */
  lemma CaughtUp(worlds: seq<World>, steps: seq<Step>, mailbox: string, user: string, n: nat)
    requires IsBehavior(worlds, steps, mailbox, user) && n <= |steps| && Mirrors(worlds[0], mailbox)
    requires SafeMoves(worlds, steps, mailbox, n)
    requires mailbox in worlds[n].db.sync && worlds[n].db.sync[mailbox].token.At?
    requires IsCurrent(worlds[n].server, worlds[n].db.sync[mailbox].token.place)
    ensures LocalIds(worlds[n].db.store, mailbox) == worlds[n].server[worlds[n].db.sync[mailbox].token.place]
  {
    hide Next, SafeMove;
    MirrorsAt(worlds, steps, mailbox, user, n);
  }

  /** One client sync after new mail: the token is current, the email is not stored, and no later job will fetch it. */
  lemma ClientSyncSkips(mailbox: string, user: string, x: string) returns (worlds: seq<World>, steps: seq<Step>)
    ensures IsBehavior(worlds, steps, mailbox, user) && Mirrors(worlds[0], mailbox)
    ensures var w := worlds[|steps|];
            && !Mirrors(w, mailbox) && mailbox in w.db.sync && w.db.sync[mailbox] == SyncState(At(1), Idle)
            && IsCurrent(w.server, 1) && x in w.server[1] && Key(mailbox, x) !in w.db.store.messages
  {
    var start := World([{}], Db(EMPTY, map[mailbox := SyncState(At(0), Idle)], []), None, map[]);
    var grown := start.(server := [{}, {x}]);
    var reading := grown.(clients := map[0 := At(0)]);
    var moved := Rewritten(reading, mailbox, SyncState(At(1), Idle));
    worlds := [start, grown, reading, moved];
    steps := [ServerChanges({x}), ClientReads(0), ClientWrites(0, Moved(1))];
    assert LocalIds(EMPTY, mailbox) == {};
    assert Next(start, grown, steps[0], mailbox, user);
    assert Next(grown, reading, steps[1], mailbox, user);
    assert Next(reading, moved, steps[2], mailbox, user);
    assert x in moved.server[1] * moved.server[1];
  }

  // ----- Progress -----

  /** Nothing picks a mailbox that is not idle. */
  predicate Shelved(w: World, mailbox: string) {
    mailbox in w.db.sync && !w.db.sync[mailbox].status.Idle? && w.job.None?
  }

  /** A client's sync that succeeds, or the account's re-activation. */
  predicate Revives(step: Step) {
    step.Activates? || (step.ClientWrites? && step.write.Moved?)
  }

  /** The step that ends a job the way the answers to it say. */
  ghost predicate EndsAs(step: Step, ending: Ending) {
    if ending.Committed? then step.Commit? else step.Finish? && step.ending == ending
  }

  /**
   How a marked job must have gone to leave its mailbox unpicked: the server could not calculate the changes, or they
   could not be fetched, or a statement of the batch failed. After any other, the next job may come.
   */
  lemma JobShelvesIff(w: World, w': World, step: Step, mailbox: string, user: string, initial: Option<nat>,
                      reply: ChangesReply, fetched: Option<seq<Email>>, fault: Fault)
    requires w.job.Some? && mailbox in w.db.sync && w.db.sync[mailbox].status.Syncing?
    requires EndsAs(step, EndingOf(w.job.value, initial, reply, fetched, fault)) && Next(w, w', step, mailbox, user)
    ensures w'.job.None? && mailbox in w'.db.sync
    ensures !w'.db.sync[mailbox].status.Idle? <==>
            && w.job.value.At?
            && match reply
               case CannotCalculate => true
               case Unavailable => false
               case Got(c) =>
                 || (c.created + c.updated != [] && fetched.None?)
                 || (match fault
                     case NoFault => false
                     case AtEmail(i) => i < if c.created + c.updated == [] then 0 else |fetched.value|
                     case AtDelete(i) => i < |c.destroyed|
                     case _ => true)
  {
    hide Applied, Reports, Fetches;
    if step.Commit? {
      AppliedToken(w.db, step.db, mailbox, user, step.changes, step.emails);
    }
  }

  /** An ended job leaves its mailbox unpicked exactly when it was abandoned or must start over; a commit never does. */
  lemma EndShelvesIff(w: World, w': World, step: Step, mailbox: string, user: string)
    requires mailbox in w.db.sync && w.db.sync[mailbox].status.Syncing?
    requires (step.Commit? || step.Finish?) && Next(w, w', step, mailbox, user)
    ensures Shelved(w', mailbox) <==> step.Finish? && (step.ending.Abandoned? || step.ending.Reset?)
    ensures !Shelved(w', mailbox) ==> w'.job.None? && w'.db.sync[mailbox].status.Idle?
    ensures step.Finish? && (step.ending.Postponed? || step.ending.NothingDone?) ==>
              w'.db.sync[mailbox] == SyncState(w.db.sync[mailbox].token, Idle)
  {
    hide Applied, Reports, Fetches;
    if step.Commit? {
      AppliedToken(w.db, step.db, mailbox, user, step.changes, step.emails);
    }
  }

  lemma StepShelvedIff(w: World, w': World, step: Step, mailbox: string, user: string)
    requires Shelved(w, mailbox) && Next(w, w', step, mailbox, user)
    ensures Shelved(w', mailbox) <==> !Revives(step)
    ensures LocalIds(w'.db.store, mailbox) == LocalIds(w.db.store, mailbox)
  {}

  /**
   A job whose fetch or transaction failed, or that crashed, leaves its mailbox marked as syncing. It stays unpicked,
   and its emails as they are, for exactly as long as no client's sync succeeds and the account is not reactivated.
   */
  lemma {:induction false} ShelvedUntilRevived(
      worlds: seq<World>, steps: seq<Step>, mailbox: string, user: string, m: nat, n: nat)
    requires IsBehavior(worlds, steps, mailbox, user) && m <= n <= |steps| && Shelved(worlds[m], mailbox)
    ensures (forall i :: m <= i <= n ==> Shelved(worlds[i], mailbox))
            <==> (forall i :: m <= i < n ==> !Revives(steps[i]))
    ensures (forall i :: m <= i < n ==> !Revives(steps[i])) ==>
              LocalIds(worlds[n].db.store, mailbox) == LocalIds(worlds[m].db.store, mailbox)
  {
    hide Next, Shelved;
    if m < n {
      ShelvedUntilRevived(worlds, steps, mailbox, user, m, n - 1);
      if Shelved(worlds[n - 1], mailbox) {
        assert Next(worlds[n - 1], worlds[n], steps[n - 1], mailbox, user);
        StepShelvedIff(worlds[n - 1], worlds[n], steps[n - 1], mailbox, user);
      }
    }
  }
}
