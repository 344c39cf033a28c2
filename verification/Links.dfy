/** The link graph of a mailbox: which stored emails name which others in In-Reply-To or References. */
module Links {
  import opened MailStore
  import opened ThreadInvariants

  /** The headers of every email that may arrive; an email's headers never change. */
  type Universe = map<Key, Headers>

  /** Email a names email b by a Message-ID, in the columns that a's row keeps. */
  predicate Link(u: Universe, a: Key, b: Key) {
    && a in u && b in u && a.account == b.account
    && MessageId(u[b]) != "" && Cites(Row(u[a], ""), MessageId(u[b]))
  }

  /** The lookup of a's thread considers b. */
  predicate Mentions(u: Universe, a: Key, b: Key) {
    && a in u && b in u && a.account == b.account
    && (MessageId(u[b]) in u[a].inReplyTo || MessageId(u[b]) in u[a].references)
  }

  /** The columns keep every id the lookup uses: none is empty, and In-Reply-To after the first adds none. */
  predicate Kept(h: Headers) {
    && "" !in h.inReplyTo && "" !in h.references
    && forall x <- h.inReplyTo :: x == h.inReplyTo[0] || x in h.references
  }

  /** The stored rows carry the headers of the universe. */
  predicate Faithful(s: Store, u: Universe) {
    forall k <- s.messages :: k in u && s.messages[k] == Row(u[k], s.messages[k].threadId)
  }

  predicate Drawn(u: Universe, ev: Event) {
    KeyOf(ev) in u && ev.email.headers == u[KeyOf(ev)]
  }

  predicate DrawnFrom(u: Universe, evs: seq<Event>) {
    forall ev <- evs :: Drawn(u, ev)
  }

  lemma StepFaithful(s: Store, u: Universe, ev: Event)
    requires Faithful(s, u) && Enabled(s, ev) && Drawn(u, ev)
    ensures Faithful(Step(s, ev), u)
  {
    StepMessages(s, ev);
  }

  lemma {:induction false} FaithfulAt(states: seq<Store>, evs: seq<Event>, u: Universe, n: nat)
    requires IsBehavior(states, evs) && n <= |evs| && Faithful(states[0], u) && DrawnFrom(u, evs)
    ensures Faithful(states[n], u)
  {
    hide Synced, Routes, Faithful;
    if n > 0 {
      FaithfulAt(states, evs, u, n - 1);
      assert Leads(states[n - 1], evs[n - 1], states[n]);
      StepFaithful(states[n - 1], u, evs[n - 1]);
    }
  }

  /** Processing an email brings every message that links to it into its thread. */
  lemma GathersLinks(s: Store, u: Universe, ev: Event, a: Key)
    requires Faithful(s, u) && Enabled(s, ev) && Drawn(u, ev)
    requires a in s.messages && Link(u, a, KeyOf(ev))
    ensures SameThread(Step(s, ev), a, KeyOf(ev))
  {
    StepMessages(s, ev);
    if a != KeyOf(ev) {
      assert Cites(s.messages[a], MessageId(ev.email.headers));
      OrphanedMeans(s, ev, s.messages[a].threadId);
    }
  }

  /** A message whose thread an email joins or merges ends in the email's thread; the others stay apart from it. */
  lemma JoinsOrStays(s: Store, ev: Event, a: Key)
    requires Enabled(s, ev) && a in s.messages && a != KeyOf(ev)
    ensures var t := Target(s, ev.account, ev.email, ev.now, ev.route);
            SameThread(Step(s, ev), a, KeyOf(ev)) <==>
            s.messages[a].threadId == t || s.messages[a].threadId in Orphaned(s, ev)
  {
    StepMessages(s, ev);
  }

  /** Messages that end together were together, or each was brought into the email's thread. */
  lemma TogetherAfter(s: Store, ev: Event, a: Key, b: Key)
    requires Enabled(s, ev) && a in s.messages && b in s.messages && a != KeyOf(ev) && b != KeyOf(ev)
    requires SameThread(Step(s, ev), a, b)
    ensures SameThread(s, a, b) || (SameThread(Step(s, ev), a, KeyOf(ev)) && SameThread(Step(s, ev), b, KeyOf(ev)))
  {
    StepMessages(s, ev);
  }
}
