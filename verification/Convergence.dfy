/**
 Convergence: once every email is stored, processing each of them once more makes the thread partition equal to the
 connected components of the link graph, whatever the arrival order, the duplicate Message-IDs and the rows picked.
 */
module Convergence {
  import opened MailStore
  import opened ThreadInvariants
  import opened Links
  import opened AnyOrder

  // ----- Components of the link graph over the emails d -----

  predicate Adjacent(u: Universe, a: Key, b: Key) {
    Link(u, a, b) || Link(u, b, a)
  }

  predicate IsPath(u: Universe, d: set<Key>, path: seq<Key>) {
    && path != []
    && (forall k <- path :: k in d)
    && forall i :: 0 < i < |path| ==> Adjacent(u, path[i - 1], path[i])
  }

  ghost predicate Joins(u: Universe, d: set<Key>, path: seq<Key>, a: Key, b: Key) {
    IsPath(u, d, path) && path[0] == a && path[|path| - 1] == b
  }

  ghost predicate Connected(u: Universe, d: set<Key>, a: Key, b: Key) {
    exists path :: Joins(u, d, path, a, b)
  }

  lemma ConnectedSelf(u: Universe, d: set<Key>, a: Key)
    requires a in d
    ensures Connected(u, d, a, a)
  {
    assert Joins(u, d, [a], a, a);
  }

  lemma ConnectedLink(u: Universe, d: set<Key>, a: Key, b: Key)
    requires a in d && b in d && Adjacent(u, a, b)
    ensures Connected(u, d, a, b)
  {
    assert Joins(u, d, [a, b], a, b);
  }

  lemma ConnectedTrans(u: Universe, d: set<Key>, a: Key, b: Key, c: Key)
    requires Connected(u, d, a, b) && Connected(u, d, b, c)
    ensures Connected(u, d, a, c)
  {
    var p :| Joins(u, d, p, a, b);
    var q :| Joins(u, d, q, b, c);
    var path := p + q[1..];
    forall i | 0 < i < |path|
      ensures Adjacent(u, path[i - 1], path[i])
    {
      if i < |p| {
        assert path[i - 1] == p[i - 1] && path[i] == p[i];
      } else {
        assert path[i] == q[i - |p| + 1] && path[i - 1] == q[i - |p|];
      }
    }
    assert Joins(u, d, path, a, c);
  }

  function Backwards(path: seq<Key>): seq<Key> {
    seq(|path|, i requires 0 <= i < |path| => path[|path| - 1 - i])
  }

  lemma ConnectedSym(u: Universe, d: set<Key>, a: Key, b: Key)
    requires Connected(u, d, a, b)
    ensures Connected(u, d, b, a)
  {
    var p :| Joins(u, d, p, a, b);
    var path := Backwards(p);
    forall i | 0 < i < |path|
      ensures Adjacent(u, path[i - 1], path[i])
    {
      assert Adjacent(u, p[|p| - 1 - i], p[|p| - i]);
    }
    assert Joins(u, d, path, b, a);
  }

  // ----- Threads stay within components -----

  ghost predicate Within(s: Store, u: Universe, d: set<Key>) {
    forall a, b | SameThread(s, a, b) :: Connected(u, d, a, b)
  }

  /** The thread an email is put into holds only emails of its own component. */
  ghost predicate SoundJoin(u: Universe, d: set<Key>, s: Store, ev: Event) {
    match ev.route
    case Existing => true
    case NewThread(_) => true
    case ViaReply(p) => Connected(u, d, KeyOf(ev), p)
    case ViaReference(p) => Connected(u, d, KeyOf(ev), p)
    case ViaSubject(t) => forall k <- s.messages | s.messages[k].threadId == t :: Connected(u, d, KeyOf(ev), k)
  }

  ghost predicate SoundJoins(u: Universe, d: set<Key>, states: seq<Store>, evs: seq<Event>)
    requires IsBehavior(states, evs)
  {
    forall i :: 0 <= i < |evs| ==> SoundJoin(u, d, states[i], evs[i])
  }

  /** Whatever ends in the thread of the email is connected to it. */
  lemma ThreadmateConnected(s: Store, u: Universe, d: set<Key>, ev: Event, a: Key)
    requires WellFormed(s) && Faithful(s, u) && Within(s, u, d) && s.messages.Keys <= d && KeyOf(ev) in d
    requires Enabled(s, ev) && Drawn(u, ev) && SoundJoin(u, d, s, ev)
    requires a in s.messages && a != KeyOf(ev) && SameThread(Step(s, ev), a, KeyOf(ev))
    ensures Connected(u, d, a, KeyOf(ev))
  {
    var e := KeyOf(ev);
    var at := s.messages[a].threadId;
    JoinsOrStays(s, ev, a);
    if at in Orphaned(s, ev) {
      OrphanedMeans(s, ev, at);
      var k :| k in s.messages && k != e && k.account == ev.account && Cites(s.messages[k], MessageId(u[e]))
               && s.messages[k].threadId == at;
      assert SameThread(s, a, k) && Link(u, k, e);
      ConnectedLink(u, d, k, e);
      ConnectedTrans(u, d, a, k, e);
    } else {
      match ev.route
      case Existing => assert SameThread(s, a, e);
      case NewThread(_) =>
      case ViaReply(p) =>
        assert SameThread(s, a, p);
        ConnectedSym(u, d, e, p);
        ConnectedTrans(u, d, a, p, e);
      case ViaReference(p) =>
        assert SameThread(s, a, p);
        ConnectedSym(u, d, e, p);
        ConnectedTrans(u, d, a, p, e);
      case ViaSubject(_) =>
        ConnectedSym(u, d, e, a);
    }
  }

  lemma StepWithin(s: Store, u: Universe, d: set<Key>, ev: Event)
    requires WellFormed(s) && Faithful(s, u) && Within(s, u, d) && s.messages.Keys <= d && KeyOf(ev) in d
    requires Enabled(s, ev) && Drawn(u, ev) && SoundJoin(u, d, s, ev)
    ensures Within(Step(s, ev), u, d)
  {
    var s' := Step(s, ev);
    var e := KeyOf(ev);
    StepMessages(s, ev);
    ConnectedSelf(u, d, e);
    forall a | a in s.messages && SameThread(s', a, e)
      ensures Connected(u, d, a, e) && Connected(u, d, e, a)
    {
      if a != e {
        ThreadmateConnected(s, u, d, ev, a);
        ConnectedSym(u, d, a, e);
      }
    }
    forall a, b | SameThread(s', a, b)
      ensures Connected(u, d, a, b)
    {
      if a != e && b != e {
        TogetherAfter(s, ev, a, b);
        if !SameThread(s, a, b) {
          ConnectedTrans(u, d, a, e, b);
        }
      }
    }
  }

  lemma ArrivedPrefix(evs: seq<Event>, n: nat)
    requires n < |evs|
    ensures Arrived(evs[..n]) <= Arrived(evs) && KeyOf(evs[n]) in Arrived(evs)
  {
    assert evs[n] in evs;
  }

  lemma {:induction false} WithinAt(states: seq<Store>, evs: seq<Event>, u: Universe, d: set<Key>, n: nat)
    requires IsBehavior(states, evs) && n <= |evs| && DrawnFrom(u, evs) && SoundJoins(u, d, states, evs)
    requires WellFormed(states[0]) && Exact(states[0]) && Faithful(states[0], u) && Within(states[0], u, d)
    requires states[0].messages.Keys + Arrived(evs) <= d
    ensures Within(states[n], u, d)
  {
    hide Faithful, Exact, WellFormed, Within, SoundJoin, Enabled, Step, Drawn, Arrived;
    if n > 0 {
      var s, ev := states[n - 1], evs[n - 1];
      WithinAt(states, evs, u, d, n - 1);
      FaithfulAt(states, evs, u, n - 1);
      StoreKept(states, evs, n - 1);
      Conserved(states, evs, n - 1);
      ArrivedPrefix(evs, n - 1);
      assert Leads(s, ev, states[n]);
      StepWithin(s, u, d, ev);
    }
  }

  /** If the final threads stay within components, then every join on the way did. */
  lemma JoinsWereSound(states: seq<Store>, evs: seq<Event>, u: Universe, d: set<Key>)
    requires IsBehavior(states, evs) && Within(states[|evs|], u, d)
    ensures SoundJoins(u, d, states, evs)
  {
    forall i | 0 <= i < |evs|
      ensures SoundJoin(u, d, states[i], evs[i])
    {
      JoinWasSound(states, evs, u, d, i);
    }
  }

  lemma JoinWasSound(states: seq<Store>, evs: seq<Event>, u: Universe, d: set<Key>, i: nat)
    requires IsBehavior(states, evs) && i < |evs| && Within(states[|evs|], u, d)
    ensures SoundJoin(u, d, states[i], evs[i])
  {
    hide Synced;
    var s, ev := states[i], evs[i];
    assert Leads(s, ev, states[i + 1]);
    forall k <- s.messages
      | k != KeyOf(ev) && s.messages[k].threadId == Target(s, ev.account, ev.email, ev.now, ev.route)
      ensures Connected(u, d, KeyOf(ev), k)
    {
      JoinsOrStays(s, ev, k);
      NeverSplitBetween(states, evs, i + 1, |evs|, KeyOf(ev), k);
    }
  }

  // ----- A second pass brings components together -----

  /** Everything that links to x shares its thread. */
  predicate Settled(s: Store, u: Universe, x: Key) {
    forall a <- s.messages | Link(u, a, x) :: SameThread(s, a, x)
  }

  /** The emails of a second pass are those already stored. */
  predicate IsPass(s: Store, evs: seq<Event>) {
    Arrived(evs) == s.messages.Keys
  }

  lemma PassStoresNothing(states: seq<Store>, evs: seq<Event>, n: nat)
    requires IsBehavior(states, evs) && n <= |evs| && IsPass(states[0], evs)
    ensures states[n].messages.Keys == states[0].messages.Keys
  {
    Conserved(states, evs, n);
    assert Arrived(evs[..n]) <= Arrived(evs);
  }

  lemma PassSettles(states: seq<Store>, evs: seq<Event>, u: Universe, x: Key)
    requires IsBehavior(states, evs) && DrawnFrom(u, evs) && Faithful(states[0], u) && IsPass(states[0], evs)
    requires x in states[0].messages
    ensures Settled(states[|evs|], u, x)
  {
    hide Synced, Routes, Faithful;
    var i :| 0 <= i < |evs| && KeyOf(evs[i]) == x;
    PassStoresNothing(states, evs, i);
    PassStoresNothing(states, evs, |evs|);
    FaithfulAt(states, evs, u, i);
    assert Leads(states[i], evs[i], states[i + 1]);
    forall a <- states[|evs|].messages | Link(u, a, x)
      ensures SameThread(states[|evs|], a, x)
    {
      GathersLinks(states[i], u, evs[i], a);
      NeverSplitBetween(states, evs, i + 1, |evs|, a, x);
    }
  }

  lemma {:induction false} PathInOneThread(s: Store, u: Universe, d: set<Key>, path: seq<Key>)
    requires d <= s.messages.Keys && (forall x <- d :: Settled(s, u, x)) && IsPath(u, d, path)
    ensures SameThread(s, path[0], path[|path| - 1])
    decreases |path|
  {
    if |path| > 1 {
      assert Adjacent(u, path[0], path[1]) && path[0] in d && path[1] in d;
      assert Settled(s, u, path[0]) && Settled(s, u, path[1]);
      assert path[1..][|path| - 2] == path[|path| - 1];
      PathInOneThread(s, u, d, path[1..]);
    }
  }

  /** After a second pass, connected emails share a thread, whatever their headers and however they arrived. */
  lemma SecondPassJoins(states: seq<Store>, evs: seq<Event>, u: Universe, a: Key, b: Key)
    requires IsBehavior(states, evs) && DrawnFrom(u, evs) && Faithful(states[0], u) && IsPass(states[0], evs)
    requires Connected(u, states[0].messages.Keys, a, b)
    ensures SameThread(states[|evs|], a, b)
  {
    hide Synced, Routes, Faithful;
    var d := states[0].messages.Keys;
    forall x <- d
      ensures Settled(states[|evs|], u, x)
    {
      PassSettles(states, evs, u, x);
    }
    PassStoresNothing(states, evs, |evs|);
    var path :| Joins(u, d, path, a, b);
    PathInOneThread(states[|evs|], u, d, path);
  }

  // ----- The theorem -----

  /** The thread partition is exactly the connected components of the stored link graph. */
  ghost predicate IsComponents(s: Store, u: Universe) {
    forall a, b | a in s.messages && b in s.messages ::
      SameThread(s, a, b) <==> Connected(u, s.messages.Keys, a, b)
  }

  /** Emails arrive from the empty store, in some order, and then a second pass goes over them all. */
  ghost predicate ArriveAndPass(u: Universe, states: seq<Store>, evs: seq<Event>, later: seq<Store>, pass: seq<Event>) {
    && IsBehavior(states, evs) && states[0] == EMPTY && DrawnFrom(u, evs)
    && IsBehavior(later, pass) && later[0] == states[|evs|] && DrawnFrom(u, pass)
    && Arrived(pass) == Arrived(evs)
  }

  lemma ArrivedStored(u: Universe, states: seq<Store>, evs: seq<Event>, later: seq<Store>, pass: seq<Event>)
    requires ArriveAndPass(u, states, evs, later, pass)
    ensures WellFormed(later[0]) && Exact(later[0]) && Faithful(later[0], u)
    ensures later[0].messages.Keys == Arrived(evs) == later[|pass|].messages.Keys && IsPass(later[0], pass)
  {
    hide Synced, Routes;
    StoreKept(states, evs, |evs|);
    FaithfulAt(states, evs, u, |evs|);
    Conserved(states, evs, |evs|);
    assert evs[..|evs|] == evs;
    PassStoresNothing(later, pass, |pass|);
  }

  lemma PassOnlyRevisits(states: seq<Store>, evs: seq<Event>, u: Universe, d: set<Key>)
    requires IsBehavior(states, evs) && IsPass(states[0], evs)
    ensures SoundJoins(u, d, states, evs)
  {
    hide Synced;
    forall i | 0 <= i < |evs|
      ensures SoundJoin(u, d, states[i], evs[i])
    {
      assert Leads(states[i], evs[i], states[i + 1]);
      PassStoresNothing(states, evs, i);
    }
  }

  /** Exactness: a second pass ends in the components if and only if no email had joined a thread outside its own. */
  lemma ComponentsIffSoundJoins(
      u: Universe, states: seq<Store>, evs: seq<Event>, later: seq<Store>, pass: seq<Event>)
    requires ArriveAndPass(u, states, evs, later, pass)
    ensures IsComponents(later[|pass|], u) <==> SoundJoins(u, Arrived(evs), states, evs)
  {
    hide Synced, Routes, SoundJoin, Faithful, WellFormed, Exact;
    var d := Arrived(evs);
    ArrivedStored(u, states, evs, later, pass);
    if SoundJoins(u, d, states, evs) {
      StoreIsEmpty(u, d);
      WithinAt(states, evs, u, d, |evs|);
      PassOnlyRevisits(later, pass, u, d);
      WithinAt(later, pass, u, d, |pass|);
      forall a, b | Connected(u, d, a, b)
        ensures SameThread(later[|pass|], a, b)
      {
        SecondPassJoins(later, pass, u, a, b);
      }
    }
    if IsComponents(later[|pass|], u) {
      forall a, b | SameThread(states[|evs|], a, b)
        ensures Connected(u, d, a, b)
      {
        NeverSplitBetween(later, pass, 0, |pass|, a, b);
      }
      JoinsWereSound(states, evs, u, d);
    }
  }

  lemma StoreIsEmpty(u: Universe, d: set<Key>)
    ensures WellFormed(EMPTY) && Exact(EMPTY) && Faithful(EMPTY, u) && Within(EMPTY, u, d)
    ensures EMPTY.messages.Keys == {}
  {}

  predicate NoSubjectJoin(evs: seq<Event>) {
    forall ev <- evs :: !ev.route.ViaSubject?
  }

  /** Whenever an email's lookup may settle on another, one of the two rows names the other. */
  predicate MentionsAdjacent(u: Universe) {
    forall e <- u, p <- u | e != p && Mentions(u, e, p) :: Adjacent(u, e, p)
  }

  /** An email joins the thread of an email it is linked to, unless it joins by subject. */
  lemma MentionedJoinSoundly(s: Store, u: Universe, d: set<Key>, ev: Event)
    requires MentionsAdjacent(u) && Drawn(u, ev) && !ev.route.ViaSubject? && Enabled(s, ev) && Faithful(s, u)
    requires s.messages.Keys <= d && KeyOf(ev) in d
    ensures SoundJoin(u, d, s, ev)
  {
    hide Connected;
    if ev.route.ViaReply? || ev.route.ViaReference? {
      var p := if ev.route.ViaReply? then ev.route.parent else ev.route.ancestor;
      assert s.messages[p] == Row(u[p], s.messages[p].threadId);
      assert Mentions(u, KeyOf(ev), p);
      ConnectedLink(u, d, KeyOf(ev), p);
    }
  }

  /** A run in which no email joins by subject ends in the components, if what lookups may settle on is linked. */
  lemma Convergence(u: Universe, states: seq<Store>, evs: seq<Event>, later: seq<Store>, pass: seq<Event>)
    requires MentionsAdjacent(u) && NoSubjectJoin(evs) && ArriveAndPass(u, states, evs, later, pass)
    ensures IsComponents(later[|pass|], u)
  {
    hide Enabled, Step, Drawn, SoundJoin, IsComponents, MentionsAdjacent, Faithful;
    forall i | 0 <= i < |evs|
      ensures SoundJoin(u, Arrived(evs), states[i], evs[i])
    {
      StoreIsEmpty(u, {});
      FaithfulAt(states, evs, u, i);
      Conserved(states, evs, i);
      assert Arrived(evs[..i]) <= Arrived(evs) && Leads(states[i], evs[i], states[i + 1]);
      MentionedJoinSoundly(states[i], u, Arrived(evs), evs[i]);
    }
    ComponentsIffSoundJoins(u, states, evs, later, pass);
  }

  /** Two arrival orders of the same emails that both end in the components agree on every pair. */
  lemma ComponentsAgree(
      u: Universe, states: seq<Store>, evs: seq<Event>, later: seq<Store>, pass: seq<Event>,
      states': seq<Store>, evs': seq<Event>, later': seq<Store>, pass': seq<Event>, a: Key, b: Key)
    requires Arrived(evs) == Arrived(evs')
    requires ArriveAndPass(u, states, evs, later, pass) && ArriveAndPass(u, states', evs', later', pass')
    requires IsComponents(later[|pass|], u) && IsComponents(later'[|pass'|], u)
    ensures SameThread(later[|pass|], a, b) <==> SameThread(later'[|pass'|], a, b)
  {
    hide Synced, Routes, IsBehavior, Connected;
    ArrivedStored(u, states, evs, later, pass);
    ArrivedStored(u, states', evs', later', pass');
  }

  // ----- Why the headers matter -----

  lemma TwoSteps(u: Universe, s: Store, a: Event, s1: Store, b: Event, s2: Store)
    requires Leads(s, a, s1) && Leads(s1, b, s2) && Drawn(u, a) && Drawn(u, b)
    ensures IsBehavior([s, s1, s2], [a, b]) && DrawnFrom(u, [a, b]) && Arrived([a, b]) == {KeyOf(a), KeyOf(b)}
  {
    hide Leads;
    var states, evs := [s, s1, s2], [a, b];
    assert evs[0] == a && evs[1] == b;
    forall i | 0 <= i < |evs|
      ensures Leads(states[i], evs[i], states[i + 1])
    {}
  }

  lemma Revisit(s: Store, u: Universe, x: Key, p: Key, e: Key) returns (s': Store)
    requires Faithful(s, u) && s.messages.Keys == {p, e} && p != e && x in {p, e}
    ensures Leads(s, Arrival(u, x, Existing), s') && Faithful(s', u) && s'.messages.Keys == {p, e}
    ensures SameThread(s, p, e) ==> SameThread(s', p, e)
    ensures !SameThread(s, p, e) && !Link(u, p, e) && !Link(u, e, p) ==> !SameThread(s', p, e)
  {
    hide Synced;
    var ev := Arrival(u, x, Existing);
    s' := Step(s, ev);
    StepMessages(s, ev);
    StepFaithful(s, u, ev);
    if SameThread(s, p, e) {
      NeverSplit(s, ev, p, e);
    } else if !Link(u, p, e) && !Link(u, e, p) {
      NotMerged(s, u, ev, if x == p then e else p);
    }
  }

  /** Some arrival order of the emails, followed by some second pass over them, ends in the store. */
  ghost predicate EndsIn(u: Universe, d: set<Key>, s: Store) {
    exists states, evs, later, pass ::
      ArriveAndPass(u, states, evs, later, pass) && Arrived(evs) == d && s == later[|pass|]
  }

  lemma PairEndsIn(u: Universe, p: Key, e: Key, a: Event, s1: Store, b: Event, s2: Store, s3: Store, s4: Store)
    requires e in u && p in u && Leads(EMPTY, a, s1) && Leads(s1, b, s2) && Drawn(u, a) && Drawn(u, b)
    requires {KeyOf(a), KeyOf(b)} == {p, e}
    requires Leads(s2, Arrival(u, p, Existing), s3) && Leads(s3, Arrival(u, e, Existing), s4)
    ensures EndsIn(u, {p, e}, s4)
  {
    hide Leads, IsBehavior;
    var c, d := Arrival(u, p, Existing), Arrival(u, e, Existing);
    TwoSteps(u, EMPTY, a, s1, b, s2);
    TwoSteps(u, s2, c, s3, d, s4);
    assert ArriveAndPass(u, [EMPTY, s1, s2], [a, b], [s2, s3, s4], [c, d]);
  }

  lemma ParentFirst(u: Universe, e: Key, p: Key) returns (s4: Store)
    requires e in u && p in u && e != p && Mentions(u, e, p)
    ensures EndsIn(u, {p, e}, s4) && SameThread(s4, p, e)
  {
    hide Synced, EndsIn, Routes;
    var a, b := Arrival(u, p, NewThread("p")), Arrival(u, e, RouteTo(u, e, p));
    var s1 := FirstArrival(u, p, "p");
    SettlesOn(s1, u, e, p, p);
    var s2 := Step(s1, b);
    StepMessages(s1, b);
    StepFaithful(s1, u, b);
    JoinsOrStays(s1, b, p);
    var s3 := Revisit(s2, u, p, p, e);
    s4 := Revisit(s3, u, e, p, e);
    PairEndsIn(u, p, e, a, s1, b, s2, s3, s4);
  }

  lemma ParentLast(u: Universe, e: Key, p: Key) returns (s4: Store)
    requires e in u && p in u && e != p && !Link(u, e, p) && !Mentions(u, p, e)
    ensures EndsIn(u, {p, e}, s4) && !SameThread(s4, p, e)
  {
    hide Synced, EndsIn, Routes;
    var a, b := Arrival(u, e, NewThread("e")), Arrival(u, p, NewThread("p"), RECENT);
    var s1 := FirstArrival(u, e, "e");
    var s2 := SecondArrival(s1, u, e, p, "p");
    var s3 := Revisit(s2, u, p, p, e);
    s4 := Revisit(s3, u, e, p, e);
    PairEndsIn(u, p, e, a, s1, b, s2, s3, s4);
  }

  /**
   An In-Reply-To id that the columns drop makes the outcome depend on the arrival order for good: an email that
   mentions p only through it joins p when p came first, and stays apart from p, even after a second pass, otherwise.
   */
  lemma DroppedParentDiverges(u: Universe, e: Key, p: Key)
    requires e in u && p in u && e != p
    requires Mentions(u, e, p) && !Link(u, e, p) && !Mentions(u, p, e)
    ensures exists s :: EndsIn(u, {p, e}, s) && SameThread(s, p, e)
    ensures exists s :: EndsIn(u, {p, e}, s) && !SameThread(s, p, e)
  {
    hide EndsIn;
    var s := ParentFirst(u, e, p);
    var s' := ParentLast(u, e, p);
  }
}
