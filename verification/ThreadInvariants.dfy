/** What every synchronised email keeps: no message is lost or split off, every cached count is exact. */
module ThreadInvariants {
  import opened MailStore

  /** Every message's thread exists and belongs to the message's account. */
  predicate Scoped(s: Store) {
    forall k <- s.messages :: s.messages[k].threadId in s.threads
                              && s.threads[s.messages[k].threadId].account == k.account
  }

  predicate NoEmptyThread(s: Store) {
    forall t <- s.threads :: exists k <- s.messages :: s.messages[k].threadId == t
  }

  predicate NoDanglingSlot(s: Store) {
    forall x <- s.slots :: x.message in s.messages
  }

  predicate WellFormed(s: Store) {
    Scoped(s) && NoEmptyThread(s) && NoDanglingSlot(s)
  }

  /** The cached counts of every thread equal a fresh recount. */
  predicate Exact(s: Store) {
    forall t <- s.threads ::
      && s.threads[t].messageCount == |ActiveIn(s.messages, s.slots, t)|
      && s.threads[t].unreadCount == |UnreadIn(s.messages, s.slots, t)|
  }

  predicate SameThread(s: Store, a: Key, b: Key) {
    a in s.messages && b in s.messages && s.messages[a].threadId == s.messages[b].threadId
  }

  ghost function Orphaned(s: Store, ev: Event): set<ThreadId>
    requires Enabled(s, ev)
  {
    var t := Target(s, ev.account, ev.email, ev.now, ev.route);
    Orphans(s.messages[KeyOf(ev) := Row(ev.email.headers, t)], ev.account, MessageId(ev.email.headers), t)
  }

  /** The messages after one email: the email's row is written, and orphaned threads move to its thread. */
  lemma StepMessages(s: Store, ev: Event)
    requires Enabled(s, ev)
    ensures var s' := Step(s, ev);
            var t := Target(s, ev.account, ev.email, ev.now, ev.route);
            var orphans := Orphaned(s, ev);
            && t !in orphans
            && s'.messages.Keys == s.messages.Keys + {KeyOf(ev)}
            && s'.messages[KeyOf(ev)] == Row(ev.email.headers, t)
            && (KeyOf(ev) in s.messages ==> s.messages[KeyOf(ev)].threadId == t)
            && forall k <- s.messages | k != KeyOf(ev) ::
                 var m := s.messages[k];
                 s'.messages[k] == if m.threadId in orphans then m.(threadId := t) else m
  {}

  /** Which threads are orphaned: those of the account's messages that cite the email's Message-ID. */
  lemma OrphanedMeans(s: Store, ev: Event, u: ThreadId)
    requires Enabled(s, ev)
    ensures var id := MessageId(ev.email.headers);
            var t := Target(s, ev.account, ev.email, ev.now, ev.route);
            u in Orphaned(s, ev) <==>
            u != t && id != ""
            && exists k <- s.messages :: k != KeyOf(ev) && k.account == ev.account && Cites(s.messages[k], id)
                                         && s.messages[k].threadId == u
  {
    var id := MessageId(ev.email.headers);
    var t := Target(s, ev.account, ev.email, ev.now, ev.route);
    var messages := s.messages[KeyOf(ev) := Row(ev.email.headers, t)];
    if u in Orphaned(s, ev) {
      var k :| k in messages && k.account == ev.account && Cites(messages[k], id) && messages[k].threadId != t
               && messages[k].threadId == u;
      assert k in s.messages && s.messages[k] == messages[k];
    }
    if k :| k in s.messages && k != KeyOf(ev) && k.account == ev.account && Cites(s.messages[k], id)
            && s.messages[k].threadId == u && u != t && id != "" {
      assert messages[k] == s.messages[k];
    }
  }

  /** Two messages once in one thread are never split. */
  lemma NeverSplit(s: Store, ev: Event, a: Key, b: Key)
    requires Enabled(s, ev) && SameThread(s, a, b)
    ensures SameThread(Step(s, ev), a, b)
  {
    StepMessages(s, ev);
  }

  lemma {:induction false} NeverSplitBetween(states: seq<Store>, evs: seq<Event>, m: nat, n: nat, a: Key, b: Key)
    requires IsBehavior(states, evs) && m <= n <= |evs| && SameThread(states[m], a, b)
    ensures SameThread(states[n], a, b)
  {
    hide Synced;
    if m < n {
      NeverSplitBetween(states, evs, m, n - 1, a, b);
      assert Leads(states[n - 1], evs[n - 1], states[n]);
      NeverSplit(states[n - 1], evs[n - 1], a, b);
    }
  }

  ghost predicate MessageEffect(s: Store, ev: Event, t: ThreadId, orphans: set<ThreadId>, s': Store) {
    && t !in orphans
    && s'.messages.Keys == s.messages.Keys + {KeyOf(ev)}
    && s'.messages[KeyOf(ev)] == Row(ev.email.headers, t)
    && (KeyOf(ev) in s.messages ==> s.messages[KeyOf(ev)].threadId == t)
    && (forall k <- s.messages | k != KeyOf(ev) ::
          s'.messages[k] == if s.messages[k].threadId in orphans then s.messages[k].(threadId := t) else s.messages[k])
  }

  ghost predicate ThreadEffect(s: Store, ev: Event, t: ThreadId, orphans: set<ThreadId>, s': Store) {
    && (forall u <- orphans :: u in s.threads && s.threads[u].account == ev.account)
    && t in s'.threads
    && s'.threads[t].account == ev.account
    && (t in s.threads ==> s.threads[t].account == ev.account)
    && s'.threads[t].messageCount == |ActiveIn(s'.messages, s'.slots, t)|
    && s'.threads[t].unreadCount == |UnreadIn(s'.messages, s'.slots, t)|
    && (forall u | u != t :: u in s'.threads <==> u in s.threads && u !in orphans)
    && (forall u <- s'.threads | u != t :: s'.threads[u] == s.threads[u])
  }

  ghost predicate SlotEffect(s: Store, ev: Event, s': Store) {
    && (forall x <- s'.slots | x.message != KeyOf(ev) :: x in s.slots && s'.slots[x] == s.slots[x])
    && (forall x <- s.slots | x.message != KeyOf(ev) :: x in s'.slots)
  }

  /** All that one email does to the tables, row by row. */
  ghost predicate Effect(s: Store, ev: Event, t: ThreadId, orphans: set<ThreadId>, s': Store) {
    MessageEffect(s, ev, t, orphans, s') && ThreadEffect(s, ev, t, orphans, s') && SlotEffect(s, ev, s')
  }

  lemma StepEffect(s: Store, ev: Event)
    requires WellFormed(s) && Enabled(s, ev)
    ensures Effect(s, ev, Target(s, ev.account, ev.email, ev.now, ev.route), Orphaned(s, ev), Step(s, ev))
  {
    StepMessages(s, ev);
    OrphanAccounts(s, ev);
    StepSlots(s, ev);
    StepThreads(s, ev);
  }

  lemma StepSlots(s: Store, ev: Event)
    requires Enabled(s, ev)
    ensures SlotEffect(s, ev, Step(s, ev))
  {
    FiledElsewhere(s.slots, KeyOf(ev), ev.email);
  }

  lemma FiledElsewhere(slots: map<Slot, Flags>, k: Key, e: Email)
    ensures forall x <- Filed(slots, k, e) | x.message != k :: x in slots && Filed(slots, k, e)[x] == slots[x]
    ensures forall x <- slots | x.message != k :: x in Filed(slots, k, e)
  {}

  lemma StepThreads(s: Store, ev: Event)
    requires WellFormed(s) && Enabled(s, ev)
    ensures ThreadEffect(s, ev, Target(s, ev.account, ev.email, ev.now, ev.route), Orphaned(s, ev), Step(s, ev))
  {
    var t := Target(s, ev.account, ev.email, ev.now, ev.route);
    var s' := Step(s, ev);
    OrphanAccounts(s, ev);
    TargetInAccount(s, ev);
    OpenedElsewhere(s, ev);
    var open := Opened(s, ev.account, ev.email, ev.now, ev.route);
    ProjectedElsewhere(open - Orphaned(s, ev), s'.messages, s'.slots, t, ev.now);
  }

  lemma TargetInAccount(s: Store, ev: Event)
    requires Scoped(s) && Enabled(s, ev)
    ensures var t := Target(s, ev.account, ev.email, ev.now, ev.route);
            var open := Opened(s, ev.account, ev.email, ev.now, ev.route);
            t in open && open[t].account == ev.account && t !in Orphaned(s, ev)
  {
    OrphanedMeans(s, ev, Target(s, ev.account, ev.email, ev.now, ev.route));
  }

  lemma OpenedElsewhere(s: Store, ev: Event)
    requires Enabled(s, ev)
    ensures var t := Target(s, ev.account, ev.email, ev.now, ev.route);
            var open := Opened(s, ev.account, ev.email, ev.now, ev.route);
            && (forall u | u != t :: u in open <==> u in s.threads)
            && (forall u <- s.threads :: u in open && open[u] == s.threads[u])
  {}

  lemma ProjectedElsewhere(threads: map<ThreadId, Thread>, messages: map<Key, Message>, slots: map<Slot, Flags>,
                           t: ThreadId, now: int)
    requires t in threads
    ensures var p := Projected(threads, messages, slots, t, now);
            && p.Keys == threads.Keys
            && p[t].account == threads[t].account
            && p[t].messageCount == |ActiveIn(messages, slots, t)|
            && p[t].unreadCount == |UnreadIn(messages, slots, t)|
            && forall u <- threads | u != t :: p[u] == threads[u]
  {}

  /** Only threads of the email's own account are merged. */
  lemma OrphanAccounts(s: Store, ev: Event)
    requires WellFormed(s) && Enabled(s, ev)
    ensures forall u <- Orphaned(s, ev) :: u in s.threads && s.threads[u].account == ev.account
  {
    forall u <- Orphaned(s, ev)
      ensures u in s.threads && s.threads[u].account == ev.account
    {
      OrphanedMeans(s, ev, u);
    }
  }

  lemma EffectScoped(s: Store, ev: Event, t: ThreadId, orphans: set<ThreadId>, s': Store)
    requires Scoped(s) && Effect(s, ev, t, orphans, s')
    ensures Scoped(s')
  {
    forall k <- s'.messages
      ensures s'.messages[k].threadId in s'.threads && s'.threads[s'.messages[k].threadId].account == k.account
    {
      if k != KeyOf(ev) {
        assert k in s.messages;
      }
    }
  }

  lemma EffectNoEmptyThread(s: Store, ev: Event, t: ThreadId, orphans: set<ThreadId>, s': Store)
    requires NoEmptyThread(s) && Effect(s, ev, t, orphans, s')
    ensures NoEmptyThread(s')
  {
    forall u <- s'.threads
      ensures exists k <- s'.messages :: s'.messages[k].threadId == u
    {
      if u == t {
        assert s'.messages[KeyOf(ev)].threadId == t;
      } else {
        var k :| k in s.messages && s.messages[k].threadId == u;
        assert s'.messages[k].threadId == u;
      }
    }
  }

  lemma EffectExact(s: Store, ev: Event, t: ThreadId, orphans: set<ThreadId>, s': Store)
    requires Exact(s) && Effect(s, ev, t, orphans, s')
    ensures Exact(s')
  {
    forall u <- s'.threads | u != t
      ensures ActiveIn(s'.messages, s'.slots, u) == ActiveIn(s.messages, s.slots, u)
      ensures UnreadIn(s'.messages, s'.slots, u) == UnreadIn(s.messages, s.slots, u)
    {
      CountsElsewhere(s, ev, t, orphans, s', u);
    }
  }

  /** A thread that the email neither joins nor merges keeps its messages and their mailbox rows. */
  lemma CountsElsewhere(s: Store, ev: Event, t: ThreadId, orphans: set<ThreadId>, s': Store, u: ThreadId)
    requires Effect(s, ev, t, orphans, s') && u != t && u !in orphans
    ensures ActiveIn(s'.messages, s'.slots, u) == ActiveIn(s.messages, s.slots, u)
    ensures UnreadIn(s'.messages, s'.slots, u) == UnreadIn(s.messages, s.slots, u)
  {
    hide ThreadEffect, Active, Unread;
    forall k: Key | k != KeyOf(ev)
      ensures Active(s'.slots, k) == Active(s.slots, k) && Unread(s'.slots, k) == Unread(s.slots, k)
    {
      SlotsDecide(s.slots, s'.slots, k);
    }
    assert forall k: Key ::
        k in s'.messages && s'.messages[k].threadId == u <==> k in s.messages && s.messages[k].threadId == u;
  }

  lemma SlotsDecide(a: map<Slot, Flags>, b: map<Slot, Flags>, k: Key)
    requires forall x <- a | x.message == k :: x in b && a[x] == b[x]
    requires forall x <- b | x.message == k :: x in a
    ensures Active(a, k) == Active(b, k) && Unread(a, k) == Unread(b, k)
  {}

  lemma StepWellFormed(s: Store, ev: Event)
    requires WellFormed(s) && Enabled(s, ev)
    ensures WellFormed(Step(s, ev))
  {
    StepEffect(s, ev);
    var t := Target(s, ev.account, ev.email, ev.now, ev.route);
    EffectScoped(s, ev, t, Orphaned(s, ev), Step(s, ev));
    EffectNoEmptyThread(s, ev, t, Orphaned(s, ev), Step(s, ev));
  }

  lemma StepExact(s: Store, ev: Event)
    requires WellFormed(s) && Exact(s) && Enabled(s, ev)
    ensures Exact(Step(s, ev))
  {
    StepEffect(s, ev);
    EffectExact(s, ev, Target(s, ev.account, ev.email, ev.now, ev.route), Orphaned(s, ev), Step(s, ev));
  }

  /** Every reachable store is well formed, and each of its threads, touched or not, is exactly projected. */
  lemma {:induction false} StoreKept(states: seq<Store>, evs: seq<Event>, n: nat)
    requires IsBehavior(states, evs) && n <= |evs| && WellFormed(states[0]) && Exact(states[0])
    ensures WellFormed(states[n]) && Exact(states[n])
  {
    hide Synced, Routes, WellFormed, Exact;
    if n > 0 {
      StoreKept(states, evs, n - 1);
      assert Leads(states[n - 1], evs[n - 1], states[n]);
      StepWellFormed(states[n - 1], evs[n - 1]);
      StepExact(states[n - 1], evs[n - 1]);
    }
  }

  /** The emails that have arrived. */
  function Arrived(evs: seq<Event>): set<Key> {
    set ev <- evs :: KeyOf(ev)
  }

  lemma ArrivedNext(evs: seq<Event>, n: nat)
    requires n < |evs|
    ensures Arrived(evs[..n + 1]) == Arrived(evs[..n]) + {KeyOf(evs[n])}
  {
    assert evs[..n + 1] == evs[..n] + [evs[n]];
  }

  /** Messages are conserved: a store holds the old messages and the emails that arrived, and nothing else. */
  lemma {:induction false} Conserved(states: seq<Store>, evs: seq<Event>, n: nat)
    requires IsBehavior(states, evs) && n <= |evs|
    ensures states[n].messages.Keys == states[0].messages.Keys + Arrived(evs[..n])
  {
    hide Synced, Routes;
    if n > 0 {
      Conserved(states, evs, n - 1);
      assert Leads(states[n - 1], evs[n - 1], states[n]);
      StepMessages(states[n - 1], evs[n - 1]);
      ArrivedNext(evs, n - 1);
    }
  }

  /** Synchronising one account leaves every row of every other account as it was. */
  predicate SameRows(s: Store, s': Store, account: string) {
    && (forall k <- s'.messages | k.account == account :: k in s.messages && s'.messages[k] == s.messages[k])
    && (forall k <- s.messages | k.account == account :: k in s'.messages)
    && (forall t <- s'.threads | s'.threads[t].account == account :: t in s.threads && s'.threads[t] == s.threads[t])
    && (forall t <- s.threads | s.threads[t].account == account :: t in s'.threads)
    && (forall x <- s'.slots | x.message.account == account :: x in s.slots && s'.slots[x] == s.slots[x])
    && (forall x <- s.slots | x.message.account == account :: x in s'.slots)
  }

  lemma EffectIsolated(s: Store, ev: Event, t: ThreadId, orphans: set<ThreadId>, s': Store, account: string)
    requires WellFormed(s) && Effect(s, ev, t, orphans, s') && account != ev.account
    ensures SameRows(s, s', account)
  {}

  lemma OtherAccountsUntouched(s: Store, ev: Event, account: string)
    requires WellFormed(s) && Enabled(s, ev) && account != ev.account
    ensures SameRows(s, Step(s, ev), account)
  {
    StepEffect(s, ev);
    EffectIsolated(s, ev, Target(s, ev.account, ev.email, ev.now, ev.route), Orphaned(s, ev), Step(s, ev), account);
  }
}
