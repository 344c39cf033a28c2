/**
 The headers under which threading converges. For every set of headers, subjects included: all arrival orders, each
 followed by a second pass, end in the connected components if and only if whatever the lookup of an email may settle
 on is linked to it.
 */
module ExactConvergence {
  import opened MailStore
  import opened ThreadInvariants
  import opened Links
  import opened AnyOrder
  import opened Convergence
  import Subjects

  /** The subject match may put e into the thread that p opened. */
  ghost predicate MatchesSubject(u: Universe, e: Key, p: Key)
    requires e in u && p in u
  {
    && e.account == p.account && SubjectEligible(u[e].subject)
    && ThreadSubject(u[p].subject) == Subjects.Normalized(u[e].subject)
  }

  ghost predicate SubjectsAdjacent(u: Universe) {
    forall e <- u, p <- u | e != p && MatchesSubject(u, e, p) :: Adjacent(u, e, p)
  }

  ghost predicate AlwaysConverges(u: Universe) {
    forall states, evs, later, pass | ArriveAndPass(u, states, evs, later, pass) :: IsComponents(later[|pass|], u)
  }

  // ----- A thread keeps the subject, and a message, of the email that opened it -----

  ghost predicate Opener(s: Store, u: Universe, t: ThreadId, k: Key)
    requires t in s.threads
  {
    k in s.messages && k in u && s.messages[k].threadId == t && s.threads[t].subject == ThreadSubject(u[k].subject)
  }

  ghost predicate HaveOpeners(s: Store, u: Universe) {
    forall t <- s.threads :: exists k :: Opener(s, u, t, k)
  }

  lemma StepSubject(s: Store, ev: Event, t: ThreadId)
    requires WellFormed(s) && Enabled(s, ev) && t in Step(s, ev).threads
    ensures var own := t == Target(s, ev.account, ev.email, ev.now, ev.route);
            if own && ev.route.NewThread? then Step(s, ev).threads[t].subject == ThreadSubject(ev.email.headers.subject)
            else t in s.threads && t !in Orphaned(s, ev) && Step(s, ev).threads[t].subject == s.threads[t].subject
  {
    StepEffect(s, ev);
  }

  /** A message still opens its thread after an email that leaves the thread in place. */
  lemma OpenerStays(s: Store, u: Universe, ev: Event, t: ThreadId, k: Key)
    requires WellFormed(s) && Enabled(s, ev) && Drawn(u, ev) && t in s.threads && Opener(s, u, t, k)
    requires t in Step(s, ev).threads && t !in Orphaned(s, ev)
    requires Step(s, ev).threads[t].subject == s.threads[t].subject
    ensures Opener(Step(s, ev), u, t, k)
  {
    hide Synced, Routes, Orphaned;
    StepMessages(s, ev);
  }

  lemma StepOpeners(s: Store, u: Universe, ev: Event)
    requires WellFormed(s) && HaveOpeners(s, u) && Enabled(s, ev) && Drawn(u, ev)
    ensures HaveOpeners(Step(s, ev), u)
  {
    hide Step, Routes, Orphaned, WellFormed, ThreadSubject;
    var s' := Step(s, ev);
    StepMessages(s, ev);
    forall t <- s'.threads
      ensures exists k :: Opener(s', u, t, k)
    {
      StepSubject(s, ev, t);
      if t == Target(s, ev.account, ev.email, ev.now, ev.route) && ev.route.NewThread? {
        assert Opener(s', u, t, KeyOf(ev));
      } else {
        var k :| Opener(s, u, t, k);
        OpenerStays(s, u, ev, t, k);
      }
    }
  }

  lemma {:induction false} OpenersAt(states: seq<Store>, evs: seq<Event>, u: Universe, n: nat)
    requires IsBehavior(states, evs) && n <= |evs| && DrawnFrom(u, evs) && states[0] == EMPTY
    ensures HaveOpeners(states[n], u) && WellFormed(states[n])
  {
    hide Synced, Routes, HaveOpeners, WellFormed, Exact;
    StoreIsEmpty(u, {});
    StoreKept(states, evs, n);
    if n == 0 {
      NoThreadsOpen(u);
    } else {
      OpenersAt(states, evs, u, n - 1);
      assert Leads(states[n - 1], evs[n - 1], states[n]);
      StepOpeners(states[n - 1], u, evs[n - 1]);
    }
  }

  lemma NoThreadsOpen(u: Universe)
    ensures HaveOpeners(EMPTY, u)
  {}

  // ----- Enough -----

  /** A subject match joins the thread of an opener that is linked to the email, and so its component. */
  lemma MatchedJoinSoundly(s: Store, u: Universe, d: set<Key>, ev: Event)
    requires SubjectsAdjacent(u) && Drawn(u, ev) && ev.route.ViaSubject? && Enabled(s, ev)
    requires WellFormed(s) && HaveOpeners(s, u) && Within(s, u, d) && s.messages.Keys <= d && KeyOf(ev) in d
    ensures SoundJoin(u, d, s, ev)
  {
    hide Synced, Within, Connected;
    var e, t := KeyOf(ev), ev.route.candidate;
    var p :| Opener(s, u, t, p);
    assert p.account == s.threads[t].account;
    assert MatchesSubject(u, e, p);
    ConnectedLink(u, d, e, p);
    forall k <- s.messages | s.messages[k].threadId == t
      ensures Connected(u, d, e, k)
    {
      ThreadmatesConnected(s, u, d, p, k);
      ConnectedTrans(u, d, e, p, k);
    }
  }

  lemma ThreadmatesConnected(s: Store, u: Universe, d: set<Key>, a: Key, b: Key)
    requires Within(s, u, d) && SameThread(s, a, b)
    ensures Connected(u, d, a, b)
  {}

  lemma {:induction false} JoinsSoundly(states: seq<Store>, evs: seq<Event>, u: Universe, n: nat)
    requires MentionsAdjacent(u) && SubjectsAdjacent(u) && DrawnFrom(u, evs) && n <= |evs|
    requires IsBehavior(states, evs) && states[0] == EMPTY
    ensures forall i :: 0 <= i < n ==> SoundJoin(u, Arrived(evs), states[i], evs[i])
    ensures Within(states[n], u, Arrived(evs))
  {
    hide Enabled, Step, Drawn, Within, SoundJoin, Faithful, WellFormed, Exact, HaveOpeners;
    hide MentionsAdjacent, SubjectsAdjacent;
    var d := Arrived(evs);
    StoreIsEmpty(u, d);
    if n > 0 {
      JoinsSoundly(states, evs, u, n - 1);
      var s, ev := states[n - 1], evs[n - 1];
      FaithfulAt(states, evs, u, n - 1);
      OpenersAt(states, evs, u, n - 1);
      Conserved(states, evs, n - 1);
      assert Arrived(evs[..n - 1]) <= d && KeyOf(ev) in d && s.messages.Keys == Arrived(evs[..n - 1]);
      assert Leads(s, ev, states[n]);
      if ev.route.ViaSubject? {
        MatchedJoinSoundly(s, u, d, ev);
      } else {
        MentionedJoinSoundly(s, u, d, ev);
      }
      StepWithin(s, u, d, ev);
    }
  }

  lemma AdjacentConverge(u: Universe, states: seq<Store>, evs: seq<Event>, later: seq<Store>, pass: seq<Event>)
    requires MentionsAdjacent(u) && SubjectsAdjacent(u) && ArriveAndPass(u, states, evs, later, pass)
    ensures IsComponents(later[|pass|], u)
  {
    hide Synced, Routes, SoundJoin, IsComponents, MentionsAdjacent, SubjectsAdjacent;
    JoinsSoundly(states, evs, u, |evs|);
    ComponentsIffSoundJoins(u, states, evs, later, pass);
  }

  // ----- No more than needed -----

  lemma MatchEnabled(s: Store, u: Universe, e: Key, p: Key)
    requires e in u && p in u && e != p && !Mentions(u, e, p) && MatchesSubject(u, e, p)
    requires Faithful(s, u) && s.messages.Keys == {p} && s.threads.Keys == {"p"} && s.threads["p"].account == p.account
    requires s.threads["p"].subject == ThreadSubject(u[p].subject) && s.threads["p"].lastMessageAt == 0
    ensures Enabled(s, Arrival(u, e, ViaSubject("p")))
    ensures Target(s, e.account, Arrival(u, e, ViaSubject("p")).email, 0, ViaSubject("p")) == "p"
  {}

  /** e arrives after p alone, and its subject matches the thread of p. */
  lemma MatchedFirst(u: Universe, e: Key, p: Key) returns (s4: Store)
    requires e in u && p in u && e != p && !Mentions(u, e, p) && MatchesSubject(u, e, p)
    ensures EndsIn(u, {p, e}, s4) && SameThread(s4, p, e)
  {
    hide Synced, EndsIn, ThreadSubject, Routes;
    var a, b := Arrival(u, p, NewThread("p")), Arrival(u, e, ViaSubject("p"));
    var s1 := FirstArrival(u, p, "p");
    MatchEnabled(s1, u, e, p);
    var s2 := Step(s1, b);
    StepMessages(s1, b);
    StepFaithful(s1, u, b);
    JoinsOrStays(s1, b, p);
    var s3 := Revisit(s2, u, p, p, e);
    s4 := Revisit(s3, u, e, p, e);
    PairEndsIn(u, p, e, a, s1, b, s2, s3, s4);
  }

  lemma ApartInPair(u: Universe, p: Key, e: Key)
    requires p != e && !Adjacent(u, p, e)
    ensures !Connected(u, {p, e}, p, e)
  {
    if path :| Joins(u, {p, e}, path, p, e) {
      OneStepBetween(u, p, e, path);
    }
  }

  /** A path between the only two emails passes from the one to the other in one step. */
  lemma {:induction false} OneStepBetween(u: Universe, p: Key, e: Key, path: seq<Key>)
    requires p != e && Joins(u, {p, e}, path, p, e)
    ensures Adjacent(u, p, e)
    decreases |path|
  {
    assert path[1] in path && Adjacent(u, path[0], path[1]);
    if path[1] == p {
      var rest := path[1..];
      forall i | 0 < i < |rest|
        ensures Adjacent(u, rest[i - 1], rest[i])
      {
        assert Adjacent(u, path[i], path[i + 1]);
      }
      OneStepBetween(u, p, e, rest);
    }
  }

  lemma JoinedApart(u: Universe, p: Key, e: Key, s: Store)
    requires p in u && e in u && p != e && !Adjacent(u, p, e) && EndsIn(u, {p, e}, s) && SameThread(s, p, e)
    ensures !AlwaysConverges(u)
  {
    hide Connected;
    var states: seq<Store>, evs: seq<Event>, later: seq<Store>, pass: seq<Event> :|
      ArriveAndPass(u, states, evs, later, pass) && Arrived(evs) == {p, e} && s == later[|pass|];
    ArrivedStored(u, states, evs, later, pass);
    ApartInPair(u, p, e);
    assert !IsComponents(s, u);
  }

  /**
   Convergence, exactly and for all headers: every arrival order followed by a second pass ends in the connected
   components if and only if an email is linked to whatever its lookup may settle on, by reference or by subject.
   */
  lemma ConvergesIffAdjacent(u: Universe)
    ensures AlwaysConverges(u) <==> MentionsAdjacent(u) && SubjectsAdjacent(u)
  {
    hide EndsIn, ArriveAndPass, IsComponents, AlwaysConverges;
    if MentionsAdjacent(u) && SubjectsAdjacent(u) {
      ConvergesWhenAdjacent(u);
    } else if !MentionsAdjacent(u) {
      var e, p :| e in u && p in u && e != p && Mentions(u, e, p) && !Adjacent(u, e, p);
      var s := ParentFirst(u, e, p);
      JoinedApart(u, p, e, s);
    } else {
      var e, p :| e in u && p in u && e != p && MatchesSubject(u, e, p) && !Adjacent(u, e, p);
      var s := MatchedFirst(u, e, p);
      JoinedApart(u, p, e, s);
    }
  }

  lemma ConvergesWhenAdjacent(u: Universe)
    requires MentionsAdjacent(u) && SubjectsAdjacent(u)
    ensures AlwaysConverges(u)
  {
    hide IsComponents, MentionsAdjacent, SubjectsAdjacent;
    forall states, evs, later, pass | ArriveAndPass(u, states, evs, later, pass)
      ensures IsComponents(later[|pass|], u)
    {
      AdjacentConverge(u, states, evs, later, pass);
    }
  }

  /** Two arrival orders of the same emails agree on every pair once each has had its second pass. */
  lemma ArrivalOrdersAgree(
      u: Universe, states: seq<Store>, evs: seq<Event>, later: seq<Store>, pass: seq<Event>,
      states': seq<Store>, evs': seq<Event>, later': seq<Store>, pass': seq<Event>, a: Key, b: Key)
    requires MentionsAdjacent(u) && SubjectsAdjacent(u) && Arrived(evs) == Arrived(evs')
    requires ArriveAndPass(u, states, evs, later, pass) && ArriveAndPass(u, states', evs', later', pass')
    ensures SameThread(later[|pass|], a, b) <==> SameThread(later'[|pass'|], a, b)
  {
    hide ArriveAndPass, IsComponents, MentionsAdjacent, SubjectsAdjacent;
    AdjacentConverge(u, states, evs, later, pass);
    AdjacentConverge(u, states', evs', later', pass');
    ComponentsAgree(u, states, evs, later, pass, states', evs', later', pass', a, b);
  }
}
