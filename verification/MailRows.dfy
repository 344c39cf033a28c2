/** What one synchronised email leaves in the tables, said of the rows themselves and of whole runs. */
module MailRows {
  import opened Wrappers
  import opened MailStore
  import opened ThreadInvariants

  // ----- One email -----

  /** The email's row holds its first Message-ID, its first In-Reply-To, all its References and its subject. */
  lemma StoredRow(s: Store, ev: Event)
    requires Enabled(s, ev)
    ensures var k, h, messages := Key(ev.account, ev.email.id), ev.email.headers, Step(s, ev).messages;
            && k in messages
            && messages[k].messageId == (if h.messageIds == [] then "" else h.messageIds[0])
            && messages[k].inReplyTo == (if h.inReplyTo == [] then None else Some(h.inReplyTo[0]))
            && messages[k].references == h.references && messages[k].subject == h.subject
  {
    hide Opened, Filed, Projected;
  }

  /** In every mailbox the email is present in it is unread unless it was seen; its other rows and all others stay. */
  lemma StoredFlags(s: Store, ev: Event)
    requires Enabled(s, ev)
    ensures var k, e, slots := Key(ev.account, ev.email.id), ev.email, Step(s, ev).slots;
            && (forall b <- e.mailboxIds | e.mailboxIds[b] ::
                  && Slot(k, b) in slots && !slots[Slot(k, b)].trashed && !slots[Slot(k, b)].sent
                  && (slots[Slot(k, b)].unread <==> !("$seen" in e.keywords && e.keywords["$seen"]))
                  && (slots[Slot(k, b)].draft <==> "$draft" in e.keywords && e.keywords["$draft"]))
            && (forall x: Slot | x.message != k || x.mailbox !in e.mailboxIds || !e.mailboxIds[x.mailbox] ::
                  (x in slots <==> x in s.slots) && (x in slots ==> slots[x] == s.slots[x]))
  {
    hide Opened, Projected, Moved, Orphans;
    FiledRows(s.slots, KeyOf(ev), ev.email);
  }

  lemma FiledRows(slots: map<Slot, Flags>, k: Key, e: Email)
    ensures var after := Filed(slots, k, e);
            && (forall b <- e.mailboxIds | e.mailboxIds[b] ::
                  && Slot(k, b) in after && !after[Slot(k, b)].trashed && !after[Slot(k, b)].sent
                  && (after[Slot(k, b)].unread <==> !("$seen" in e.keywords && e.keywords["$seen"]))
                  && (after[Slot(k, b)].draft <==> "$draft" in e.keywords && e.keywords["$draft"]))
            && (forall x: Slot | x.message != k || x.mailbox !in e.mailboxIds || !e.mailboxIds[x.mailbox] ::
                  (x in after <==> x in slots) && (x in after ==> after[x] == slots[x]))
  {
    forall b <- e.mailboxIds | e.mailboxIds[b]
      ensures Slot(k, b) in Filed(slots, k, e) && Filed(slots, k, e)[Slot(k, b)] == FlagsOf(e)
    {
      assert IsSet(e.mailboxIds, b);
    }
  }

  /**
   Every message of the account whose In-Reply-To or References column names the email's Message-ID ends in its thread;
   any other message stays where it was, unless it shared its thread with one that does. Nothing else of a row changes.
   */
  lemma MovesCiters(s: Store, ev: Event)
    requires Enabled(s, ev)
    ensures var e, messages := Key(ev.account, ev.email.id), Step(s, ev).messages;
            var id := if ev.email.headers.messageIds == [] then "" else ev.email.headers.messageIds[0];
            && messages.Keys == s.messages.Keys + {e}
            && (forall k <- s.messages | k != e && k.account == e.account && id != ""
                                         && (s.messages[k].inReplyTo == Some(id) || id in s.messages[k].references) ::
                  messages[k].threadId == messages[e].threadId)
            && (forall k <- s.messages | k != e && messages[k] != s.messages[k] ::
                  && messages[k] == s.messages[k].(threadId := messages[e].threadId) && id != ""
                  && exists j <- s.messages ::
                       && j != e && j.account == e.account && s.messages[j].threadId == s.messages[k].threadId
                       && (s.messages[j].inReplyTo == Some(id) || id in s.messages[j].references))
  {
    hide Synced;
    StepMessages(s, ev);
    var e, id, messages := Key(ev.account, ev.email.id), MessageId(ev.email.headers), Step(s, ev).messages;
    forall k <- s.messages | k != e
      ensures k.account == e.account && id != ""
              && (s.messages[k].inReplyTo == Some(id) || id in s.messages[k].references) ==>
                messages[k].threadId == messages[e].threadId
      ensures messages[k] != s.messages[k] ==>
                && messages[k] == s.messages[k].(threadId := messages[e].threadId) && id != ""
                && exists j <- s.messages ::
                     && j != e && j.account == e.account && s.messages[j].threadId == s.messages[k].threadId
                     && (s.messages[j].inReplyTo == Some(id) || id in s.messages[j].references)
    {
      OrphanedMeans(s, ev, s.messages[k].threadId);
    }
  }

  // ----- Whole runs -----

  /** The i-th event is the last of the first n that synchronised the email k. */
  predicate LastSync(evs: seq<Event>, i: nat, n: nat, k: Key) {
    && i < n <= |evs| && evs[i].account == k.account && evs[i].email.id == k.emailId
    && forall j :: i < j < n ==> KeyOf(evs[j]) != k
  }

  /** Nothing but an email's own synchronisation touches its mailbox rows. */
  lemma {:induction false} SlotsStay(states: seq<Store>, evs: seq<Event>, i: nat, n: nat, k: Key)
    requires IsBehavior(states, evs) && LastSync(evs, i, n, k)
    ensures k in states[n].messages
    ensures forall x: Slot | x.message == k ::
              (x in states[n].slots <==> x in states[i + 1].slots)
              && (x in states[n].slots ==> states[n].slots[x] == states[i + 1].slots[x])
  {
    hide Synced, Routes;
    assert Leads(states[n - 1], evs[n - 1], states[n]);
    StepMessages(states[n - 1], evs[n - 1]);
    if i + 1 < n {
      SlotsStay(states, evs, i, n - 1, k);
      StepSlots(states[n - 1], evs[n - 1]);
    }
  }

  /**
   Whatever was synchronised before and after: an email that only the mailboxes of its last synchronisation hold counts
   as unread in its thread exactly when that synchronisation found it in some mailbox, and without the seen flag.
   */
  lemma UnreadIffUnseen(states: seq<Store>, evs: seq<Event>, i: nat, n: nat, k: Key)
    requires IsBehavior(states, evs) && LastSync(evs, i, n, k)
    requires forall x <- states[n].slots | x.message == k ::
               x.mailbox in evs[i].email.mailboxIds && evs[i].email.mailboxIds[x.mailbox]
    ensures k in states[n].messages
    ensures var e := evs[i].email;
            k in UnreadIn(states[n].messages, states[n].slots, states[n].messages[k].threadId) <==>
            (exists b <- e.mailboxIds :: e.mailboxIds[b]) && !("$seen" in e.keywords && e.keywords["$seen"])
  {
    hide Synced, Routes;
    SlotsStay(states, evs, i, n, k);
    assert Leads(states[i], evs[i], states[i + 1]);
    StoredFlags(states[i], evs[i]);
    var e, slots := evs[i].email, states[n].slots;
    if b :| b in e.mailboxIds && e.mailboxIds[b] {
      assert Slot(k, b) in states[i + 1].slots && Slot(k, b) in slots;
    }
    forall x <- slots | x.message == k
      ensures !slots[x].trashed && (slots[x].unread <==> !("$seen" in e.keywords && e.keywords["$seen"]))
    {
      assert x == Slot(k, x.mailbox) && x in states[i + 1].slots;
    }
  }
}
