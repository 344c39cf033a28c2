/**
 Realtime fan-out: clients with bounded channels, registered per user. What a client's channel was ever given is an
 unbroken run of its user's events, from its registration to its first overflow or its unregistering.
 */
module Broker {

  datatype Event = Event(user: string, kind: string, payload: string)

  /** The events of a user, in order. */
  function Of(user: string, events: seq<Event>): seq<Event> {
    if events == [] then []
    else
      var e := events[|events| - 1];
      Of(user, events[..|events| - 1]) + if e.user == user then [e] else []
  }

  lemma {:induction false} OfAppend(user: string, a: seq<Event>, b: seq<Event>)
    ensures Of(user, a + b) == Of(user, a) + Of(user, b)
  {
    if b == [] {
      assert a + b == a;
    } else {
      assert (a + b)[..|a + b| - 1] == a + b[..|b| - 1];
      OfAppend(user, a, b[..|b| - 1]);
    }
  }

  /**
   A websocket client and its channel. The ghost fields are history: the events taken off the channel, and the
   positions in the broker's log where the client came and went.
   */
  class Client {
    const user: string
    const capacity: nat
    var channel: seq<Event>
    var closed: bool
    ghost var taken: seq<Event>
    ghost var since: nat
    ghost var upto: nat

    constructor (user: string, capacity: nat)
      ensures this.user == user && this.capacity == capacity && channel == taken == [] && !closed
    {
      this.user, this.capacity := user, capacity;
      channel, closed, taken, since, upto := [], false, [], 0, 0;
    }

    /** Everything ever put on the channel. */
    ghost function Sent(): seq<Event>
      reads this
    {
      taken + channel
    }

    /** A send that does not wait; sending on a closed channel would panic. */
    method Offer(event: Event) returns (ok: bool)
      requires !closed
      modifies this`channel
      ensures ok == (old(|channel|) < capacity)
      ensures channel == if ok then old(channel) + [event] else old(channel)
    {
      ok := |channel| < capacity;
      if ok {
        channel := channel + [event];
      }
    }

    /** Closing a closed channel would panic. */
    method Close()
      requires !closed
      modifies this`closed
      ensures closed
    {
      closed := true;
    }

    /** The write pump takes the next event. */
    method Take() returns (event: Event)
      requires channel != []
      modifies this`channel, this`taken
      ensures [event] + channel == old(channel) && taken == old(taken) + [event] && Sent() == old(Sent())
    {
      event := channel[0];
      channel, taken := channel[1..], taken + [event];
      assert old(channel) == [event] + channel;
    }
  }

  /** The clients are filed by user; a client is reached through its own user's set. */
  predicate Among(c: Client, clients: map<string, set<Client>>) {
    c.user in clients && c in clients[c.user]
  }

  ghost predicate Filed(clients: map<string, set<Client>>, known: set<Client>) {
    forall u <- clients :: clients[u] <= known && forall c <- clients[u] :: c.user == u
  }

  /** What was sent is what the log holds for the user between two moments. */
  ghost predicate Unbroken(user: string, sent: seq<Event>, log: seq<Event>, since: nat, end: nat) {
    since <= end <= |log| && sent == Of(user, log[since..end])
  }

  lemma UnbrokenNext(user: string, sent: seq<Event>, log: seq<Event>, since: nat, end: nat, e: Event)
    requires Unbroken(user, sent, log, since, end)
    ensures Unbroken(user, sent, log + [e], since, end)
    ensures end == |log| ==>
              Unbroken(user, sent + if e.user == user then [e] else [], log + [e], since, end + 1)
  {
    assert (log + [e])[since..end] == log[since..end];
    if end == |log| {
      assert (log + [e])[since..end + 1] == log[since..end] + [e];
      assert (log[since..end] + [e])[..end - since] == log[since..end];
    }
  }

  /** Taking a client off its user's set, and the set itself when that leaves it empty, touches nobody else. */
  lemma Removed(clients: map<string, set<Client>>, c: Client, d: Client)
    requires c.user in clients
    ensures var rest := clients[c.user] - {c};
            var now := if rest == {} then clients - {c.user} else clients[c.user := rest];
            Among(d, now) <==> Among(d, clients) && d != c
  {
    var rest := clients[c.user] - {c};
    assert d in rest <==> d in clients[c.user] && d != c;
  }

  class Broker {
    var clients: map<string, set<Client>>
    /** Every event ever broadcast, and every client ever registered. */
    ghost var log: seq<Event>
    ghost var known: set<Client>

    ghost predicate Registered(c: Client)
      reads this`clients
    {
      Among(c, clients)
    }

    /** The channel was given all the user's events between two moments of the log, in order, and nothing else. */
    ghost predicate GapFree(c: Client)
      reads this`clients, this`log, c
    {
      Unbroken(c.user, c.Sent(), log, c.since, if Registered(c) then |log| else c.upto)
    }

    ghost predicate Valid()
      reads this, known
    {
      && Filed(clients, known)
      && (forall c <- known :: GapFree(c) && |c.channel| <= c.capacity && (Registered(c) ==> !c.closed))
    }

    constructor ()
      ensures Valid() && clients == map[] && log == [] && known == {}
    {
      clients, log, known := map[], [], {};
    }

    method Register(c: Client)
      requires Valid() && c !in known && c.Sent() == [] && !c.closed
      modifies this, c`since
      ensures Valid() && log == old(log) && known == old(known) + {c}
      ensures c.since == |log|
      ensures Registered(c) && forall d <- old(known) :: Registered(d) == old(Registered(d))
    {
      hide Unbroken;
      if c.user !in clients {
        clients := clients[c.user := {}];
      }
      clients := clients[c.user := clients[c.user] + {c}];
      known := known + {c};
      c.since := |log|;
      forall d <- old(known) ensures Registered(d) == old(Registered(d)) && d.Sent() == old(d.Sent()) {}
      Fresh(c.user, log);
    }

    /** What the read pump does on its way out, whether or not the client was dropped before; the channel stays open. */
    method Unregister(c: Client)
      requires Valid() && c in known
      modifies this`clients, c`upto
      ensures Valid()
      ensures !Registered(c) && forall d <- known | d != c :: Registered(d) == old(Registered(d))
      ensures c.upto == if old(Registered(c)) then |log| else old(c.upto)
      ensures c.user in clients ==> clients[c.user] != {}
    {
      hide Unbroken;
      if Registered(c) {
        c.upto := |log|;
      }
      if c.user in clients {
        forall d <- known ensures (var rest := clients[c.user] - {c};
                                   var now := if rest == {} then clients - {c.user} else clients[c.user := rest];
                                   Among(d, now) <==> Among(d, clients) && d != c) {
          Removed(clients, c, d);
        }
        clients := clients[c.user := clients[c.user] - {c}];
        if clients[c.user] == {} {
          clients := clients - {c.user};
          assert clients == old(clients) - {c.user};
        }
      }
      forall d <- known ensures d.Sent() == old(d.Sent()) && (d != c ==> Registered(d) == old(Registered(d))) {}
    }

    /** A client's write pump at work beside the broker. */
    method WritePump(c: Client) returns (event: Event)
      requires Valid() && c in known && c.channel != []
      modifies c`channel, c`taken
      ensures Valid() && [event] + c.channel == old(c.channel) && c.taken == old(c.taken) + [event]
    {
      hide Unbroken;
      event := c.Take();
      forall d <- known ensures d.Sent() == old(d.Sent()) {}
    }

    /** One turn of the broadcast loop: the send that does not wait, and the drop when it fails. */
    method Hand(c: Client, event: Event)
      requires c.user == event.user && Registered(c) && !c.closed && |log| > 0
      modifies this`clients, c
      ensures clients == old(clients)[c.user := if Dropped(c) then old(clients[c.user]) - {c} else old(clients[c.user])]
      ensures Got(c, event) && c.upto == if Dropped(c) then |log| - 1 else old(c.upto)
    {
      var ok := c.Offer(event);
      if !ok {
        c.Close();
        c.upto := |log| - 1;
        clients := clients[event.user := clients[event.user] - {c}];
      }
      assert ok ==> clients == clients[c.user := clients[c.user]];
    }

    /** The broadcast loop over one user's clients, in any order; a full client is closed and dropped. */
    method FanOut(event: Event)
      requires event.user in clients && |log| > 0
      requires forall c <- clients[event.user] :: c.user == event.user && !c.closed
      modifies this`clients, clients[event.user]
      ensures event.user in clients && clients[event.user] <= old(clients[event.user])
      ensures clients == old(clients)[event.user := clients[event.user]]
      ensures forall c <- old(clients[event.user]) :: Handed(c, event)
    {
      ghost var all: set<Client> := clients[event.user];
      var todo: set<Client> := clients[event.user];
      while todo != {}
        invariant event.user in clients && todo <= clients[event.user] <= all
        invariant clients == old(clients)[event.user := clients[event.user]]
        invariant forall c <- todo :: Same(c)
        invariant forall c <- all - todo :: Handed(c, event)
      {
        var c :| c in todo;
        todo := todo - {c};
        assert Same(c) && forall d <- all - todo | d != c :: Handed(d, event);
        label Turn:
        Hand(c, event);
        forall d <- all - todo ensures Handed(d, event) {
          assert d.user == event.user;
          if d != c {
            assert old@Turn(Registered(d)) == Registered(d);
          } else {
            assert Dropped@Turn(c) <==> Dropped(c);
          }
        }
      }
    }

    /** Hands the event to the clients of its user, if there are any here. */
    method Broadcast(event: Event)
      requires Valid()
      modifies this, known
      ensures Valid() && log == old(log) + [event] && known == old(known)
      ensures forall c <- known :: Handled(c, event)
    {
      log := log + [event];
      if event.user in clients {
        FanOut(event);
      }
      forall c <- known ensures Handled(c, event) {
        assert old(Registered(c)) && c.user == event.user ==> Handed(c, event);
        assert !(old(Registered(c)) && c.user == event.user) ==> Same(c);
      }
      Settled(event);
    }

    /** The channel was full when the event came. */
    twostate predicate Dropped(c: Client) {
      old(|c.channel|) >= c.capacity
    }

    /** What became of a registered client's channel. */
    twostate predicate Got(c: Client, event: Event)
      reads c
    {
      && c.taken == old(c.taken) && c.since == old(c.since) && c.closed == Dropped(c)
      && c.channel == old(c.channel) + if Dropped(c) then [] else [event]
    }

    /** Clients each handled, the log has no gap for any of them. */
    twostate lemma Settled(event: Event)
      requires old(Valid()) && known == old(known) && log == old(log) + [event] && Filed(clients, known)
      requires forall c <- known :: Handled(c, event)
      ensures Valid()
    {
      forall c <- known ensures GapFree(c) && |c.channel| <= c.capacity && (Registered(c) ==> !c.closed) {
        assert Handled(c, event);
        UnbrokenNext(c.user, old(c.Sent()), old(log), c.since, old(if Registered(c) then |log| else c.upto), event);
        hide Unbroken;
        assert c.Sent() == old(c.Sent()) + if Registered(c) && c.user == event.user then [event] else [];
      }
    }

    twostate predicate Same(c: Client)
      reads c
    {
      c.channel == old(c.channel) && c.closed == old(c.closed) && c.taken == old(c.taken)
      && c.since == old(c.since) && c.upto == old(c.upto)
    }

    twostate predicate Handed(c: Client, event: Event)
      reads this, c
    {
      Got(c, event) && Registered(c) == !Dropped(c) && c.upto == if Dropped(c) then |log| - 1 else old(c.upto)
    }

    /** What a broadcast does to one client. */
    twostate predicate Handled(c: Client, event: Event)
      reads this, c
    {
      if old(Registered(c)) && c.user == event.user
      then Got(c, event) && Registered(c) == !Dropped(c) && (Dropped(c) ==> c.upto == old(|log|))
      else Registered(c) == old(Registered(c)) && Same(c)
    }
  }

  lemma Fresh(user: string, log: seq<Event>)
    ensures Unbroken(user, [], log, |log|, |log|)
  {
  }

  /** All open connections of a user agree: from the moment the later one came, both were given the same events. */
  lemma OpenClientsAgree(b: Broker, c: Client, d: Client)
    requires b.Valid() && c in b.known && d in b.known && b.Registered(c) && b.Registered(d)
    requires c.user == d.user && c.since <= d.since
    ensures c.Sent() == Of(c.user, b.log[c.since..d.since]) + d.Sent()
  {
    assert b.GapFree(c) && b.GapFree(d);
    var end := |b.log|;
    assert b.log[c.since..end] == b.log[c.since..d.since] + b.log[d.since..end];
    OfAppend(c.user, b.log[c.since..d.since], b.log[d.since..end]);
  }
}
