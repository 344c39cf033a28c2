/**
 Threading in one pass. Emails arrive in any order, and each is processed once or more. The module gives the exact
 condition on the headers under which every email always shares a thread with all the stored emails it links to.
 */
module AnyOrder {
  import opened MailStore
  import opened ThreadInvariants
  import opened Links

  /** With q and r alone stored, the lookup for e may settle on q. */
  predicate MayPick(u: Universe, e: Key, q: Key, r: Key)
    requires e in u && q in u && r in u
  {
    || MessageId(u[q]) in u[e].inReplyTo
    || (MessageId(u[q]) in u[e].references && MessageId(u[r]) !in u[e].inReplyTo)
  }

  /**
   Ancestor-complete headers on the emails in c: when e may settle on q but also links to r, then q and r are linked
   themselves (from within c), or r links back to e.
   */
  predicate Complete(u: Universe, c: set<Key>) {
    forall e <- c, q <- u, r <- u |
      e in u && e != q && e != r && q != r && e.account == q.account && MayPick(u, e, q, r) && Link(u, e, r) ::
      (q in c && Link(u, q, r)) || (r in c && Link(u, r, q)) || Link(u, r, e)
  }

  /** Every stored email of c shares a thread with every stored email it links to. */
  predicate Threaded(s: Store, u: Universe, c: set<Key>) {
    forall a <- s.messages, b <- s.messages | a in c && Link(u, a, b) :: SameThread(s, a, b)
  }

  /** The new email itself ends in the thread of everything it links to, whichever row the lookup picked. */
  lemma NewEmailThreaded(s: Store, u: Universe, c: set<Key>, ev: Event, r: Key)
    requires Faithful(s, u) && Threaded(s, u, c) && Complete(u, c)
    requires Enabled(s, ev) && Drawn(u, ev) && KeyOf(ev) in c && KeyOf(ev) !in s.messages
    requires r in s.messages && Link(u, KeyOf(ev), r)
    ensures SameThread(Step(s, ev), KeyOf(ev), r)
  {
    var e := KeyOf(ev);
    var h := ev.email.headers;
    JoinsOrStays(s, ev, r);
    assert s.messages[r].messageId == MessageId(u[r]);
    assert Named(s.messages, ev.account, h.inReplyTo, r) || Named(s.messages, ev.account, h.references, r);
    var q := if ev.route.ViaReply? then ev.route.parent else ev.route.ancestor;
    assert MayPick(u, e, q, r);
    if q != r {
      if Link(u, r, e) {
        GathersLinks(s, u, ev, r);
      } else if Link(u, q, r) && q in c {
        assert SameThread(s, q, r);
      } else {
        assert SameThread(s, r, q);
      }
    }
  }

  lemma StepThreaded(s: Store, u: Universe, c: set<Key>, ev: Event)
    requires Faithful(s, u) && Threaded(s, u, c) && Complete(u, c)
    requires Enabled(s, ev) && Drawn(u, ev)
    ensures Threaded(Step(s, ev), u, c)
  {
    var s' := Step(s, ev);
    var e := KeyOf(ev);
    StepMessages(s, ev);
    forall a <- s'.messages, b <- s'.messages | a in c && Link(u, a, b)
      ensures SameThread(s', a, b)
    {
      if a in s.messages && b in s.messages {
        NeverSplit(s, ev, a, b);
      } else if b == e && a in s.messages {
        GathersLinks(s, u, ev, a);
      } else if a == e && b in s.messages {
        NewEmailThreaded(s, u, c, ev, b);
      }
    }
  }

  /**
   Any-order threading: with ancestor-complete headers, after every email of every arrival order, each stored email
   shares a thread with each stored email it links to, whatever rows the lookups picked.
   */
  lemma {:induction false} CompleteHeadersThread(states: seq<Store>, evs: seq<Event>, u: Universe, c: set<Key>, n: nat)
    requires IsBehavior(states, evs) && n <= |evs| && DrawnFrom(u, evs)
    requires Faithful(states[0], u) && Threaded(states[0], u, c) && Complete(u, c)
    ensures Threaded(states[n], u, c)
  {
    hide Synced, Routes, Threaded, Complete, Faithful;
    if n > 0 {
      CompleteHeadersThread(states, evs, u, c, n - 1);
      FaithfulAt(states, evs, u, n - 1);
      assert Leads(states[n - 1], evs[n - 1], states[n]);
      StepThreaded(states[n - 1], u, c, evs[n - 1]);
    }
  }

  // ----- The condition is exact -----

  /** No two emails mention each other without either row linking the other. */
  predicate NoSilentPair(u: Universe) {
    forall q <- u, r <- u | q != r && Mentions(u, q, r) && Mentions(u, r, q) :: Link(u, q, r) || Link(u, r, q)
  }

  ghost predicate AlwaysThreaded(u: Universe) {
    forall states: seq<Store>, evs: seq<Event> | IsBehavior(states, evs) && states[0] == EMPTY && DrawnFrom(u, evs) ::
      Threaded(states[|evs|], u, u.Keys)
  }

  function Arrival(u: Universe, k: Key, r: Route, now: int := 0): Event
    requires k in u
  {
    Event(k.account, Email(k.emailId, u[k], map[], map[]), now, r)
  }

  /** An email that names nothing stored, and comes too late for a match by subject, opens a thread of its own. */
  lemma OpensThread(s: Store, u: Universe, k: Key, t: ThreadId, now: int)
    requires Faithful(s, u) && k in u && k !in s.messages && t !in s.threads
    requires forall p <- s.messages :: !Mentions(u, k, p)
    requires forall other <- s.threads :: s.threads[other].lastMessageAt <= now - RECENT
    ensures Enabled(s, Arrival(u, k, NewThread(t), now))
    ensures Target(s, k.account, Arrival(u, k, NewThread(t), now).email, now, NewThread(t)) == t
  {}

  /** The route by which e settles on q when q and r alone are stored. */
  function RouteTo(u: Universe, e: Key, q: Key): Route
    requires e in u && q in u
  {
    if MessageId(u[q]) in u[e].inReplyTo then ViaReply(q) else ViaReference(q)
  }

  lemma SettlesOn(s: Store, u: Universe, e: Key, q: Key, r: Key)
    requires Faithful(s, u) && s.messages.Keys == {q, r} && e in u && e !in s.messages
    requires e.account == q.account == r.account && MayPick(u, e, q, r)
    ensures Enabled(s, Arrival(u, e, RouteTo(u, e, q)))
    ensures Target(s, e.account, Arrival(u, e, RouteTo(u, e, q)).email, 0, RouteTo(u, e, q)) == s.messages[q].threadId
  {}

  /** A message that does not link to the arriving email, and whose thread holds nothing else, is not moved. */
  lemma NotMerged(s: Store, u: Universe, ev: Event, k: Key)
    requires Faithful(s, u) && Enabled(s, ev) && Drawn(u, ev) && k in s.messages && k != KeyOf(ev)
    requires forall a <- s.messages | SameThread(s, a, k) :: !Link(u, a, KeyOf(ev))
    ensures Step(s, ev).messages[k].threadId == s.messages[k].threadId
  {
    StepMessages(s, ev);
    OrphanedMeans(s, ev, s.messages[k].threadId);
  }

  lemma FirstArrival(u: Universe, q: Key, t: ThreadId) returns (s: Store)
    requires q in u
    ensures Leads(EMPTY, Arrival(u, q, NewThread(t)), s)
    ensures Faithful(s, u) && WellFormed(s) && s.messages.Keys == {q} && s.messages[q].threadId == t
    ensures s.threads.Keys == {t}
    ensures var thread := s.threads[t];
            thread.account == q.account && thread.subject == ThreadSubject(u[q].subject) && thread.lastMessageAt == 0
  {
    hide Synced;
    var ev := Arrival(u, q, NewThread(t));
    OpensThread(EMPTY, u, q, t, 0);
    s := Step(EMPTY, ev);
    StepFaithful(EMPTY, u, ev);
    StepWellFormed(EMPTY, ev);
    StepMessages(EMPTY, ev);
    assert s.messages[q].threadId in s.threads;
    OpenedRow(u, q, t);
  }

  /** The row of the thread that a first email opens. */
  lemma OpenedRow(u: Universe, q: Key, t: ThreadId)
    requires q in u && Enabled(EMPTY, Arrival(u, q, NewThread(t)))
    ensures var threads := Step(EMPTY, Arrival(u, q, NewThread(t))).threads;
            && threads.Keys == {t} && threads[t].account == q.account
            && threads[t].subject == ThreadSubject(u[q].subject) && threads[t].lastMessageAt == 0
  {
    var ev := Arrival(u, q, NewThread(t));
    assert Orphaned(EMPTY, ev) == {};
  }

  /** A second email, arriving when the first one's thread has grown old. */
  lemma SecondArrival(s: Store, u: Universe, q: Key, r: Key, t: ThreadId) returns (s': Store)
    requires r in u && q in u && q != r && !Mentions(u, r, q) && !Link(u, q, r)
    requires Faithful(s, u) && s.messages.Keys == {q} && t !in s.threads
    requires forall other <- s.threads :: s.threads[other].lastMessageAt <= 0
    ensures Leads(s, Arrival(u, r, NewThread(t), RECENT), s')
    ensures Faithful(s', u) && s'.messages.Keys == {q, r}
    ensures s'.messages[q].threadId == s.messages[q].threadId && s'.messages[r].threadId == t
  {
    hide Synced;
    var ev := Arrival(u, r, NewThread(t), RECENT);
    OpensThread(s, u, r, t, RECENT);
    s' := Step(s, ev);
    StepFaithful(s, u, ev);
    StepMessages(s, ev);
    NotMerged(s, u, ev, q);
  }

  /**
   If e may settle on q while it links to an r unlinked to both, and q and r do not mention each other both ways, then
   some arrival order leaves r apart: the one of q and r that does not mention the other comes second.
   */
  lemma IncompleteSplits(u: Universe, e: Key, q: Key, r: Key)
    requires e in u && q in u && r in u && e != q && e != r && q != r && e.account == q.account
    requires !(Mentions(u, q, r) && Mentions(u, r, q))
    requires MayPick(u, e, q, r) && Link(u, e, r) && !Link(u, q, r) && !Link(u, r, q) && !Link(u, r, e)
    ensures !AlwaysThreaded(u)
  {
    if Mentions(u, r, q) {
      SplitsAfter(u, e, q, r, r, q);
    } else {
      SplitsAfter(u, e, q, r, q, r);
    }
  }

  /** Two emails in threads of their own, the second naming nothing of the first. */
  lemma TwoApart(u: Universe, a: Key, b: Key) returns (s1: Store, s2: Store)
    requires a in u && b in u && a != b && !Mentions(u, b, a) && !Link(u, a, b)
    ensures Leads(EMPTY, Arrival(u, a, NewThread("a")), s1) && Leads(s1, Arrival(u, b, NewThread("b"), RECENT), s2)
    ensures Faithful(s2, u) && s2.messages.Keys == {a, b} && !SameThread(s2, a, b)
  {
    hide Leads;
    s1 := FirstArrival(u, a, "a");
    s2 := SecondArrival(s1, u, a, b, "b");
  }

  lemma SplitsAfter(u: Universe, e: Key, q: Key, r: Key, a: Key, b: Key)
    requires e in u && q in u && r in u && e != q && e != r && q != r && e.account == q.account
    requires MayPick(u, e, q, r) && Link(u, e, r) && !Link(u, q, r) && !Link(u, r, q) && !Link(u, r, e)
    requires (a, b) == (q, r) || (a, b) == (r, q)
    requires !Mentions(u, b, a)
    ensures !AlwaysThreaded(u)
  {
    hide Leads, Threaded, AlwaysThreaded, MayPick, Faithful;
    var s1, s2 := TwoApart(u, a, b);
    var s3 := ThirdArrival(s2, u, e, q, r);
    ThreeSteps(u, Arrival(u, a, NewThread("a")), Arrival(u, b, NewThread("b"), RECENT),
               Arrival(u, e, RouteTo(u, e, q)), s1, s2, s3);
  }

  /** With q and r apart, e settles on q and leaves r where it is. */
  lemma ThirdArrival(s: Store, u: Universe, e: Key, q: Key, r: Key) returns (s': Store)
    requires Faithful(s, u) && s.messages.Keys == {q, r} && !SameThread(s, q, r)
    requires e in u && e != q && e != r && e.account == q.account == r.account
    requires MayPick(u, e, q, r) && Link(u, e, r) && !Link(u, q, r) && !Link(u, r, q) && !Link(u, r, e)
    ensures Leads(s, Arrival(u, e, RouteTo(u, e, q)), s') && !Threaded(s', u, u.Keys)
  {
    hide Synced, Routes;
    var ev := Arrival(u, e, RouteTo(u, e, q));
    SettlesOn(s, u, e, q, r);
    s' := Step(s, ev);
    NotMerged(s, u, ev, r);
    StepMessages(s, ev);
    assert !SameThread(s', e, r);
  }

  lemma ThreeSteps(u: Universe, a: Event, b: Event, c: Event, s1: Store, s2: Store, s3: Store)
    requires Leads(EMPTY, a, s1) && Leads(s1, b, s2) && Leads(s2, c, s3)
    requires Drawn(u, a) && Drawn(u, b) && Drawn(u, c)
    ensures AlwaysThreaded(u) ==> Threaded(s3, u, u.Keys)
  {
    hide Leads;
    var states, evs := [EMPTY, s1, s2, s3], [a, b, c];
    assert IsBehavior(states, evs);
    assert states[|evs|] == s3;
  }

  /**
   Exactness: every email shares a thread with all it links to after every arrival order if and only if the headers are
   ancestor-complete, unless two emails mention each other silently.
   */
  lemma AnyOrderIffComplete(u: Universe)
    requires NoSilentPair(u)
    ensures AlwaysThreaded(u) <==> Complete(u, u.Keys)
  {
    hide Synced;
    if Complete(u, u.Keys) {
      forall states: seq<Store>, evs: seq<Event> | IsBehavior(states, evs) && states[0] == EMPTY && DrawnFrom(u, evs)
        ensures Threaded(states[|evs|], u, u.Keys)
      {
        CompleteHeadersThread(states, evs, u, u.Keys, |evs|);
      }
    } else {
      var e, q, r :| e in u && q in u && r in u && e != q && e != r && q != r && e.account == q.account
                     && MayPick(u, e, q, r) && Link(u, e, r) && !Link(u, q, r) && !Link(u, r, q) && !Link(u, r, e);
      IncompleteSplits(u, e, q, r);
    }
  }

  // ----- Silent pairs -----

  /** Of any two emails of an account, whichever comes second is tied to the other, by its lookup or by being cited. */
  predicate AllTied(u: Universe) {
    forall a <- u, b <- u | a != b && a.account == b.account :: Mentions(u, a, b) || Link(u, b, a)
  }

  predicate OneThread(s: Store) {
    forall a <- s.messages, b <- s.messages | a.account == b.account :: SameThread(s, a, b)
  }

  lemma StepTied(s: Store, u: Universe, ev: Event)
    requires AllTied(u) && OneThread(s) && Faithful(s, u) && WellFormed(s) && Enabled(s, ev) && Drawn(u, ev)
    ensures OneThread(Step(s, ev))
  {
    hide Synced;
    var s', e := Step(s, ev), KeyOf(ev);
    StepMessages(s, ev);
    forall a <- s.messages | a != e && a.account == e.account
      ensures SameThread(s', a, e)
    {
      TiedJoins(s, u, ev, a);
    }
    forall a <- s'.messages, b <- s'.messages | a.account == b.account
      ensures SameThread(s', a, b)
    {
      if a != e && b != e {
        NeverSplit(s, ev, a, b);
      }
    }
  }

  lemma TiedJoins(s: Store, u: Universe, ev: Event, a: Key)
    requires AllTied(u) && OneThread(s) && Faithful(s, u) && WellFormed(s) && Enabled(s, ev) && Drawn(u, ev)
    requires a in s.messages && a != KeyOf(ev) && a.account == KeyOf(ev).account
    ensures SameThread(Step(s, ev), a, KeyOf(ev))
  {
    var e := KeyOf(ev);
    if Link(u, a, e) {
      GathersLinks(s, u, ev, a);
    } else {
      assert Mentions(u, e, a) && s.messages[a] == Row(u[a], s.messages[a].threadId);
      assert Named(s.messages, e.account, u[e].inReplyTo, a) || Named(s.messages, e.account, u[e].references, a);
      JoinsOrStays(s, ev, a);
      var p := if ev.route.ViaReply? then ev.route.parent else if ev.route.ViaReference? then ev.route.ancestor else e;
      assert SameThread(s, a, p);
    }
  }

  lemma {:induction false} TiedStayTogether(states: seq<Store>, evs: seq<Event>, u: Universe, n: nat)
    requires AllTied(u) && IsBehavior(states, evs) && states[0] == EMPTY && DrawnFrom(u, evs) && n <= |evs|
    ensures OneThread(states[n])
  {
    hide Synced, Routes, AllTied, Faithful, OneThread, WellFormed, Exact;
    if n == 0 {
      assert OneThread(EMPTY) by { NothingApart(); }
    } else {
      TiedStayTogether(states, evs, u, n - 1);
      assert Faithful(EMPTY, u) && WellFormed(EMPTY) && Exact(EMPTY) by { NothingStored(u); }
      FaithfulAt(states, evs, u, n - 1);
      StoreKept(states, evs, n - 1);
      assert Leads(states[n - 1], evs[n - 1], states[n]);
      StepTied(states[n - 1], u, evs[n - 1]);
    }
  }

  lemma NothingApart()
    ensures OneThread(EMPTY)
  {}

  lemma NothingStored(u: Universe)
    ensures Faithful(EMPTY, u) && WellFormed(EMPTY) && Exact(EMPTY)
  {}

  /** Silent pairs do make a difference: these headers are not ancestor-complete, and yet always threaded. */
  lemma SilentPairsThread() returns (u: Universe)
    ensures !NoSilentPair(u) && !Complete(u, u.Keys) && AlwaysThreaded(u)
  {
    var e, q, r := Key("", "e"), Key("", "q"), Key("", "r");
    u := map[e := Headers(["e"], [], ["q", "r"], ""),
             q := Headers(["q"], ["x", "r"], [], ""),
             r := Headers(["r"], ["x", "q"], [], "")];
    assert Mentions(u, q, r) && Mentions(u, r, q) && Link(u, e, q) && Link(u, e, r);
    assert !Link(u, q, r) && !Link(u, r, q) && !Link(u, r, e) && MayPick(u, e, q, r);
    assert AllTied(u);
    hide Synced, AllTied, OneThread;
    forall states: seq<Store>, evs: seq<Event> | IsBehavior(states, evs) && states[0] == EMPTY && DrawnFrom(u, evs)
      ensures Threaded(states[|evs|], u, u.Keys)
    {
      TiedStayTogether(states, evs, u, |evs|);
      OneThreadIsThreaded(states[|evs|], u);
    }
  }

  lemma OneThreadIsThreaded(s: Store, u: Universe)
    requires OneThread(s)
    ensures Threaded(s, u, u.Keys)
  {}
}
