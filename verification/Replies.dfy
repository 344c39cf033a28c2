/** Conversations built by the service's own reply and reply-all headers end in one thread, in any order of arrival. */
module Replies {
  import opened MailStore
  import opened ThreadInvariants
  import opened Links
  import opened AnyOrder
  import Subjects

  /** The id a reply names its original by: the Message-ID, or the server's email id when there is none. */
  function NameOf(k: Key, orig: Headers): string {
    if MessageId(orig) != "" then MessageId(orig) else k.emailId
  }

  /** The threading headers of a reply (or reply-all) to the email k; the server assigns the reply's own Message-ID. */
  function Reply(k: Key, orig: Headers, subject: string, messageIds: seq<string>): Headers {
    var name := NameOf(k, orig);
    Headers(messageIds, [name], orig.references + [name],
            if subject == "" then Subjects.ReplySubject(orig.subject) else subject)
  }

  /** A reply's row links to its original exactly when the original has a Message-ID. */
  lemma ReplyLinksIffNamed(u: Universe, orig: Key, reply: Key, subject: string, messageIds: seq<string>)
    requires orig in u && reply in u && orig.account == reply.account
    requires u[reply] == Reply(orig, u[orig], subject, messageIds)
    ensures Link(u, reply, orig) <==> MessageId(u[orig]) != ""
    ensures MessageId(u[orig]) == "" ==>
              u[reply].inReplyTo == [orig.emailId] && u[reply].references == u[orig].references + [orig.emailId]
  {
    assert u[reply].references[|u[orig].references|] == NameOf(orig, u[orig]);
  }

  /** A reply without a subject of its own keeps its original's normal form, and one with a subject keeps that. */
  lemma RepliesKeepSubject(k: Key, orig: Headers, subject: string, messageIds: seq<string>)
    ensures var reply := Reply(k, orig, subject, messageIds);
            && (subject != "" ==> reply.subject == subject)
            && (subject == "" ==> Subjects.Normalized(reply.subject) == Subjects.Normalized(orig.subject)
                                  && "re: " <= Subjects.Lower(reply.subject))
  {
    hide Subjects.Normalized, Subjects.ReplySubject;
    Subjects.OneRewriting(orig.subject);
    Subjects.RewritingMarks(orig.subject);
  }

  /** No other email of the account carries the Message-ID of k. */
  predicate OwnsMessageId(u: Universe, k: Key)
    requires k in u
  {
    MessageId(u[k]) != "" && forall x <- u | x.account == k.account && MessageId(u[x]) == MessageId(u[k]) :: x == k
  }

  /**
   keys[0] is any email, perhaps itself a reply to other mail, and every later email is a reply to the earlier email
   that parents names. The account may hold any other mail besides.
   */
  ghost predicate Conversation(u: Universe, keys: seq<Key>, parents: seq<nat>) {
    && keys != [] && |parents| == |keys|
    && (forall i :: 0 <= i < |keys| ==> keys[i] in u && keys[i].account == keys[0].account && OwnsMessageId(u, keys[i]))
    && (forall i :: 0 < i < |keys| ==> parents[i] < i && RepliesTo(u, keys[i], keys[parents[i]]))
  }

  ghost predicate RepliesTo(u: Universe, reply: Key, orig: Key)
    requires reply in u && orig in u
  {
    exists subject: string :: u[reply] == Reply(orig, u[orig], subject, u[reply].messageIds)
  }

  /** The positions from the root down to the parent of keys[i]. */
  ghost function Path(u: Universe, keys: seq<Key>, parents: seq<nat>, i: nat): (path: seq<nat>)
    requires Conversation(u, keys, parents) && i < |keys|
    ensures forall n :: 0 <= n < |path| ==> path[n] < i
  {
    if i == 0 then [] else Path(u, keys, parents, parents[i]) + [parents[i]]
  }

  ghost predicate Above(u: Universe, keys: seq<Key>, parents: seq<nat>, j: nat, i: nat)
    requires Conversation(u, keys, parents) && i < |keys|
  {
    j in Path(u, keys, parents, i)
  }

  /** The References of a reply are exactly its root's own, then the Message-IDs on its root-to-parent path. */
  lemma {:induction false} ReferencesArePath(u: Universe, keys: seq<Key>, parents: seq<nat>, i: nat)
    requires Conversation(u, keys, parents) && i < |keys|
    ensures var path, own := Path(u, keys, parents, i), u[keys[0]].references;
            && |u[keys[i]].references| == |own| + |path|
            && u[keys[i]].references[..|own|] == own
            && (forall n :: 0 <= n < |path| ==> u[keys[i]].references[|own| + n] == MessageId(u[keys[path[n]]]))
            && (i > 0 ==> u[keys[i]].inReplyTo == [MessageId(u[keys[parents[i]]])])
  {
    if i > 0 {
      assert RepliesTo(u, keys[i], keys[parents[i]]);
      ReferencesArePath(u, keys, parents, parents[i]);
    }
  }

  lemma {:induction false} PathIsChain(u: Universe, keys: seq<Key>, parents: seq<nat>, i: nat, j: nat, k: nat)
    requires Conversation(u, keys, parents) && i < |keys|
    requires Above(u, keys, parents, j, i) && Above(u, keys, parents, k, i) && j != k
    ensures j < i && k < i && (Above(u, keys, parents, j, k) || Above(u, keys, parents, k, j))
  {
    var p := parents[i];
    if j != p && k != p {
      PathIsChain(u, keys, parents, p, j, k);
    }
  }

  lemma {:induction false} RootAboveAll(u: Universe, keys: seq<Key>, parents: seq<nat>, i: nat)
    requires Conversation(u, keys, parents) && 0 < i < |keys|
    ensures Above(u, keys, parents, 0, i)
  {
    if parents[i] > 0 {
      RootAboveAll(u, keys, parents, parents[i]);
    }
  }

  /** A reply links to every email on its path. */
  lemma LinksUp(u: Universe, keys: seq<Key>, parents: seq<nat>, i: nat, j: nat)
    requires Conversation(u, keys, parents) && i < |keys| && Above(u, keys, parents, j, i)
    ensures j < i && Link(u, keys[i], keys[j])
  {
    ReferencesArePath(u, keys, parents, i);
    var path := Path(u, keys, parents, i);
    var n :| 0 <= n < |path| && path[n] == j;
    assert u[keys[i]].references[|u[keys[0]].references| + n] in u[keys[i]].references;
  }

  /** A reply names its path and what its root's references name, and nothing else. */
  lemma ReferenceAt(u: Universe, keys: seq<Key>, parents: seq<nat>, i: nat, q: Key) returns (j: nat)
    requires Conversation(u, keys, parents) && 0 < i < |keys| && Mentions(u, keys[i], q)
    requires MessageId(u[q]) !in u[keys[0]].references
    ensures j < i && Above(u, keys, parents, j, i) && q == keys[j]
  {
    hide RepliesTo, OwnsMessageId;
    ReferencesArePath(u, keys, parents, i);
    var path, own := Path(u, keys, parents, i), u[keys[0]].references;
    // The parent's id ends the references, so In-Reply-To adds none.
    assert path[|path| - 1] == parents[i];
    var rest := u[keys[i]].references[|own|..];
    assert u[keys[i]].references == own + rest;
    var n :| 0 <= n < |rest| && rest[n] == MessageId(u[q]);
    j := path[n];
    assert OwnsMessageId(u, keys[j]) && u[keys[i]].references[|own| + n] == MessageId(u[keys[j]]);
    IdIsOwn(u, keys[j], q);
  }

  lemma IdIsOwn(u: Universe, k: Key, q: Key)
    requires k in u && q in u && OwnsMessageId(u, k) && q.account == k.account && MessageId(u[q]) == MessageId(u[k])
    ensures q == k
  {}

  /** What the root names of the mail before it. */
  ghost function Ancestors(u: Universe, root: Key): set<Key> {
    set x <- u | x != root && Mentions(u, root, x)
  }

  /** The mail before the root is ancestor-complete: any two emails the root names are linked, and so on upwards. */
  ghost predicate RootComplete(u: Universe, root: Key) {
    && root in u && Kept(u[root]) && Complete(u, Ancestors(u, root))
    && forall q <- Ancestors(u, root), r <- Ancestors(u, root) | q != r :: Link(u, q, r) || Link(u, r, q)
  }

  ghost function Members(u: Universe, keys: seq<Key>): set<Key>
    requires keys != []
  {
    (set k <- keys) + Ancestors(u, keys[0])
  }

  /** An email of the conversation names either its path or an ancestor that everything from the root down names too. */
  lemma NamedFrom(u: Universe, keys: seq<Key>, parents: seq<nat>, i: nat, q: Key) returns (j: nat)
    requires Conversation(u, keys, parents) && i < |keys| && q != keys[i] && Mentions(u, keys[i], q)
    requires RootComplete(u, keys[0])
    ensures || (j < i && Above(u, keys, parents, j, i) && q == keys[j])
            || (q in Ancestors(u, keys[0]) && (i > 0 ==> MessageId(u[q]) in u[keys[0]].references))
  {
    j := 0;
    if i > 0 && MessageId(u[q]) !in u[keys[0]].references {
      j := ReferenceAt(u, keys, parents, i, q);
    } else if i > 0 && q == keys[0] {
      RootAboveAll(u, keys, parents, i);
    }
  }

  /** Everything from the root down links to what the root's references name. */
  lemma LinksBeyond(u: Universe, keys: seq<Key>, parents: seq<nat>, i: nat, q: Key)
    requires Conversation(u, keys, parents) && i < |keys| && RootComplete(u, keys[0])
    requires q in Ancestors(u, keys[0]) && MessageId(u[q]) in u[keys[0]].references
    ensures Link(u, keys[i], q)
  {
    ReferencesArePath(u, keys, parents, i);
    var own := u[keys[0]].references;
    var n :| 0 <= n < |own| && own[n] == MessageId(u[q]);
    assert u[keys[i]].references[..|own|][n] == own[n];
    assert u[keys[i]].references[n] in u[keys[i]].references;
  }

  /** Such conversations, with the mail before their root, have ancestor-complete headers. */
  lemma ConversationIsComplete(u: Universe, keys: seq<Key>, parents: seq<nat>)
    requires Conversation(u, keys, parents) && RootComplete(u, keys[0])
    ensures Complete(u, Members(u, keys))
  {
    hide RepliesTo, OwnsMessageId;
    var c := Members(u, keys);
    forall e <- c, q <- u, r <- u |
      e in u && e != q && e != r && q != r && e.account == q.account && MayPick(u, e, q, r) && Link(u, e, r)
      ensures (q in c && Link(u, q, r)) || (r in c && Link(u, r, q)) || Link(u, r, e)
    {
      if e in keys {
        var i :| 0 <= i < |keys| && keys[i] == e;
        MemberComplete(u, keys, parents, i, q, r);
      } else {
        assert RootComplete(u, keys[0]);
        AncestorComplete(u, keys[0], e, q, r);
      }
    }
  }

  lemma AncestorComplete(u: Universe, root: Key, e: Key, q: Key, r: Key)
    requires RootComplete(u, root) && e in Ancestors(u, root) && q in u && r in u
    requires e != q && e != r && q != r && e.account == q.account && MayPick(u, e, q, r) && Link(u, e, r)
    ensures var c := Ancestors(u, root); (q in c && Link(u, q, r)) || (r in c && Link(u, r, q)) || Link(u, r, e)
  {}

  lemma MemberComplete(u: Universe, keys: seq<Key>, parents: seq<nat>, i: nat, q: Key, r: Key)
    requires Conversation(u, keys, parents) && RootComplete(u, keys[0]) && i < |keys|
    requires q != keys[i] && r != keys[i] && q != r && Mentions(u, keys[i], q) && Mentions(u, keys[i], r)
    ensures var c := Members(u, keys); (q in c && Link(u, q, r)) || (r in c && Link(u, r, q))
  {
    hide RepliesTo, OwnsMessageId, Complete;
    var j := NamedFrom(u, keys, parents, i, q);
    var k := NamedFrom(u, keys, parents, i, r);
    var before := set x <- Ancestors(u, keys[0]) | i > 0 ==> MessageId(u[x]) in u[keys[0]].references;
    if q in before && r !in before {
      LinksBeyond(u, keys, parents, k, q);
    } else if r in before && q !in before {
      LinksBeyond(u, keys, parents, j, r);
    } else if q !in before {
      PathIsChain(u, keys, parents, i, j, k);
      if Above(u, keys, parents, j, k) {
        LinksUp(u, keys, parents, k, j);
      } else {
        LinksUp(u, keys, parents, j, k);
      }
    }
  }

  /**
   A conversation of replies is one thread as soon as it is stored, together with the mail its root names, whatever
   else arrives and in whatever order.
   */
  lemma ConversationIsOneThread(states: seq<Store>, evs: seq<Event>, u: Universe, keys: seq<Key>, parents: seq<nat>,
                                n: nat, x: Key)
    requires Conversation(u, keys, parents) && RootComplete(u, keys[0]) && x in Members(u, keys)
    requires IsBehavior(states, evs) && states[0] == EMPTY && DrawnFrom(u, evs) && n <= |evs|
    requires keys[0] in states[n].messages && x in states[n].messages
    ensures SameThread(states[n], x, keys[0])
  {
    hide Synced, Routes, Complete;
    ConversationIsComplete(u, keys, parents);
    CompleteHeadersThread(states, evs, u, Members(u, keys), n);
    if x in keys {
      var i :| 0 <= i < |keys| && keys[i] == x;
      if i > 0 {
        RootAboveAll(u, keys, parents, i);
        LinksUp(u, keys, parents, i, 0);
      }
    } else {
      assert Link(u, keys[0], x);
    }
  }
}
