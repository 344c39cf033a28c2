/** The resumable backfill: batches from a stored position, each in one transaction, interrupted anywhere. */
module Backfill {
  import opened MailStore
  import opened ThreadInvariants
  import opened Links
  import opened Convergence
  import opened ExactConvergence
  import opened SyncWorker
  import MailRepository

  datatype Progress = Complete | More | Failed

  function Min(a: nat, b: nat): nat {
    if a < b then a else b
  }

  /** The server's page of its fixed listing; beyond its end there is nothing. */
  function Page(listing: seq<Email>, position: nat, limit: nat): seq<Email> {
    if position >= |listing| then [] else listing[position..Min(position + limit, |listing|)]
  }

  class Worker {
    const repo: MailRepository.Repository
    var checkpoints: map<string, nat>

    constructor (repo: MailRepository.Repository)
      ensures this.repo == repo && checkpoints == map[]
    {
      this.repo := repo;
      checkpoints := map[];
    }

    function Position(account: string): nat
      reads this
    {
      if account in checkpoints then checkpoints[account] else 0
    }

    /**
     One batch of the account's listing; a failed call leaves no trace. fetched is the page as the server returns it, in
     an order of its own.
     */
    method RunBackfillBatch(account: string, listing: seq<Email>, limit: nat, reachable: bool, fetched: seq<Email>,
                            now: int, fault: Fault)
      returns (r: Progress)
      requires Reordered(fetched, Page(listing, Position(account), limit))
      modifies this, repo
      ensures BatchStep(listing, limit, account,
                        old(repo.View()), old(Position(account)), repo.View(), Position(account))
      ensures forall a | a != account :: Position(a) == old(Position(a))
      ensures r.Complete? <==> reachable && (old(Position(account)) >= |listing| || limit == 0)
      ensures !r.More? ==> repo.View() == old(repo.View()) && Position(account) == old(Position(account))
      ensures r.More? ==>
                var from, upto := old(Position(account)), old(Position(account)) + limit;
                && reachable && from < |listing| && 0 < limit
                && Position(account) == (if upto <= |listing| then upto else |listing|)
                && PassesOver(old(repo.View()), repo.View(), account, listing[from..Position(account)])
      ensures reachable && old(Position(account)) < |listing| && 0 < limit && fault.NoFault? ==> r.More?
    {
      var position := Position(account);
      if !reachable {
        return Failed;
      }
      var page := Page(listing, position, limit);
      if page == [] {
        return Complete;
      }
      if fault.AtBegin? {
        return Failed;
      }
      var threads, messages, slots := repo.threads, repo.messages, repo.slots;
      var ok, states, evs := ProcessEmails(repo, account, fetched, now, fault);
      if !ok || fault.AtCommit? {
        repo.threads, repo.messages, repo.slots := threads, messages, slots;
        return Failed;
      }
      checkpoints := checkpoints[account := position + |page|];
      return More;
    }
  }

  /** A call either leaves everything as it was, or synchronises the next page and moves past it. */
  ghost predicate BatchStep(listing: seq<Email>, limit: nat, account: string, s: Store, p: nat, s': Store, p': nat) {
    || (s' == s && p' == p)
    || (p < |listing| && 0 < limit && p' == Min(p + limit, |listing|) && PassesOver(s, s', account, listing[p..p']))
  }

  /** The same emails, each as often, in any order. */
  ghost predicate Reordered(order: seq<Email>, emails: seq<Email>) {
    multiset(order) == multiset(emails)
  }

  /** Some run of ProcessEmailSync over exactly these emails, in some order, leads from one store to the other. */
  ghost predicate PassesOver(s: Store, s': Store, account: string, emails: seq<Email>) {
    exists order :: Reordered(order, emails) && Passes(s, s', account, order)
  }

  /** Some run of ProcessEmailSync over these emails in this order leads from one store to the other. */
  ghost predicate Passes(s: Store, s': Store, account: string, emails: seq<Email>) {
    exists states, evs :: Synchronises(states, evs, account, emails) && states[0] == s && states[|evs|] == s'
  }

  /** Any sequence of calls over a fixed listing, each interrupted or not. */
  ghost predicate IsBackfill(
    listing: seq<Email>, limit: nat, account: string, stores: seq<Store>, positions: seq<nat>)
  {
    && |stores| == |positions| > 0 && positions[0] == 0
    && forall i {:trigger stores[i]} :: 0 < i < |stores| ==>
         BatchStep(listing, limit, account, stores[i - 1], positions[i - 1], stores[i], positions[i])
  }

  lemma PassesNothing(s: Store, account: string)
    ensures Passes(s, s, account, [])
  {
    var evs: seq<Event> := [];
    assert Synchronises([s], evs, account, []) && [s][|evs|] == s;
  }

  lemma PassesJoin(s: Store, s1: Store, s2: Store, account: string, first: seq<Email>, second: seq<Email>)
    requires Passes(s, s1, account, first) && Passes(s1, s2, account, second)
    ensures Passes(s, s2, account, first + second)
  {
    hide Leads;
    var a: seq<Store>, ea: seq<Event> :| Synchronises(a, ea, account, first) && a[0] == s && a[|ea|] == s1;
    var b: seq<Store>, eb: seq<Event> :| Synchronises(b, eb, account, second) && b[0] == s1 && b[|eb|] == s2;
    var states, evs := a + b[1..], ea + eb;
    forall i {:trigger evs[i]} | 0 <= i < |evs|
      ensures Leads(states[i], evs[i], states[i + 1])
    {
      if i < |ea| {
        assert evs[i] == ea[i];
      } else {
        assert evs[i] == eb[i - |ea|];
      }
    }
    assert Synchronises(states, evs, account, first + second);
    assert states[|evs|] == s2;
  }

  /** The emails before the position, in some order that keeps each batch in its place. */
  ghost predicate BatchByBatch(order: seq<Email>, listing: seq<Email>, positions: seq<nat>, n: nat)
    requires n < |positions|
  {
    && |order| == positions[n] <= |listing|
    && forall k :: 0 <= k <= n ==>
                     positions[k] <= positions[n] && Reordered(order[..positions[k]], listing[..positions[k]])
  }

  /**
   Resumability: however often calls are interrupted, after any of them the tables are those of one uninterrupted pass
   over exactly the emails before the position, each processed once, batch by batch.
   */
  lemma {:induction false} BackfillIsOnePass(
      listing: seq<Email>, limit: nat, account: string, stores: seq<Store>, positions: seq<nat>, n: nat)
    requires IsBackfill(listing, limit, account, stores, positions) && n < |stores|
    ensures exists order :: BatchByBatch(order, listing, positions, n) && Passes(stores[0], stores[n], account, order)
  {
    hide Passes, BatchByBatch;
    if n == 0 {
      PassesNothing(stores[0], account);
      NoBatch(listing, positions);
    } else {
      BackfillIsOnePass(listing, limit, account, stores, positions, n - 1);
      var before :| BatchByBatch(before, listing, positions, n - 1)
                    && Passes(stores[0], stores[n - 1], account, before);
      var p, p' := positions[n - 1], positions[n];
      assert BatchStep(listing, limit, account, stores[n - 1], p, stores[n], p');
      if p' == p {
        NoMoreBatch(before, listing, positions, n);
      } else {
        var page :| Reordered(page, listing[p..p']) && Passes(stores[n - 1], stores[n], account, page);
        PassesJoin(stores[0], stores[n - 1], stores[n], account, before, page);
        OneMoreBatch(before, page, listing, positions, n);
      }
    }
  }

  lemma NoBatch(listing: seq<Email>, positions: seq<nat>)
    requires positions != [] && positions[0] == 0
    ensures BatchByBatch([], listing, positions, 0)
  {}

  lemma NoMoreBatch(order: seq<Email>, listing: seq<Email>, positions: seq<nat>, n: nat)
    requires 0 < n < |positions| && positions[n] == positions[n - 1]
    requires BatchByBatch(order, listing, positions, n - 1)
    ensures BatchByBatch(order, listing, positions, n)
  {}

  lemma OneMoreBatch(before: seq<Email>, page: seq<Email>, listing: seq<Email>, positions: seq<nat>, n: nat)
    requires 0 < n < |positions| && positions[n - 1] < positions[n] <= |listing|
    requires BatchByBatch(before, listing, positions, n - 1)
    requires Reordered(page, listing[positions[n - 1]..positions[n]])
    ensures BatchByBatch(before + page, listing, positions, n)
  {
    var p, p', order := positions[n - 1], positions[n], before + page;
    SameLength(page, listing[p..p']);
    assert listing[..p'] == listing[..p] + listing[p..p'];
    assert before[..p] == before && order[..p'] == order;
    forall k | 0 <= k <= n
      ensures positions[k] <= p' && Reordered(order[..positions[k]], listing[..positions[k]])
    {
      if k < n {
        assert order[..positions[k]] == before[..positions[k]];
      }
    }
  }

  lemma SameLength(order: seq<Email>, emails: seq<Email>)
    requires Reordered(order, emails)
    ensures |order| == |emails|
  {
    assert |multiset(order)| == |multiset(emails)|;
  }

  lemma SameEmails(order: seq<Email>, emails: seq<Email>)
    requires Reordered(order, emails)
    ensures forall e :: e in order <==> e in emails
  {
    assert forall e :: e in order <==> e in multiset(order);
    assert forall e :: e in emails <==> e in multiset(emails);
  }

  /** The pass behind a backfill that has come this far. */
  lemma OnePass(listing: seq<Email>, limit: nat, account: string, stores: seq<Store>, positions: seq<nat>, n: nat)
    returns (order: seq<Email>)
    requires IsBackfill(listing, limit, account, stores, positions) && n < |stores|
    ensures positions[n] <= |listing| && Passes(stores[0], stores[n], account, order)
    ensures forall e :: e in order <==> e in listing[..positions[n]]
  {
    hide Passes, BatchStep;
    BackfillIsOnePass(listing, limit, account, stores, positions, n);
    order :| BatchByBatch(order, listing, positions, n) && Passes(stores[0], stores[n], account, order);
    assert order[..positions[n]] == order;
    SameEmails(order, listing[..positions[n]]);
  }

  /** The number of calls that committed a batch. */
  function Commits(positions: seq<nat>, n: nat): nat
    requires n < |positions|
  {
    if n == 0 then 0 else Commits(positions, n - 1) + if positions[n] != positions[n - 1] then 1 else 0
  }

  /** Every committed batch is progress, so no run commits more batches than there are emails. */
  lemma {:induction false} BackfillProgress(
      listing: seq<Email>, limit: nat, account: string, stores: seq<Store>, positions: seq<nat>, n: nat)
    requires IsBackfill(listing, limit, account, stores, positions) && n < |stores|
    ensures Commits(positions, n) <= positions[n] <= |listing|
  {
    hide Passes;
    if n > 0 {
      BackfillProgress(listing, limit, account, stores, positions, n - 1);
      assert BatchStep(listing, limit, account, stores[n - 1], positions[n - 1], stores[n], positions[n]);
    }
  }

  function Ids(account: string, emails: seq<Email>): set<Key> {
    set e <- emails :: Key(account, e.id)
  }

  predicate Listed(u: Universe, account: string, emails: seq<Email>) {
    forall e <- emails :: Key(account, e.id) in u && e.headers == u[Key(account, e.id)]
  }

  lemma SynchronisedIds(states: seq<Store>, evs: seq<Event>, account: string, emails: seq<Email>)
    requires Synchronises(states, evs, account, emails)
    ensures Arrived(evs) == Ids(account, emails)
  {
    hide Leads;
    forall ev <- evs
      ensures KeyOf(ev) in Ids(account, emails)
    {
      var i :| 0 <= i < |evs| && evs[i] == ev;
      assert emails[i] in emails;
    }
    forall k <- Ids(account, emails)
      ensures k in Arrived(evs)
    {
      var i :| 0 <= i < |emails| && Key(account, emails[i].id) == k;
      assert evs[i] in evs;
    }
  }

  lemma SynchronisedEvents(states: seq<Store>, evs: seq<Event>, account: string, emails: seq<Email>, u: Universe)
    requires Synchronises(states, evs, account, emails) && Listed(u, account, emails)
    ensures Arrived(evs) == Ids(account, emails) && DrawnFrom(u, evs)
  {
    hide Leads;
    SynchronisedIds(states, evs, account, emails);
    forall ev <- evs
      ensures Drawn(u, ev)
    {
      var i :| 0 <= i < |evs| && evs[i] == ev;
      assert emails[i] in emails;
    }
  }

  lemma PassKeeps(s: Store, s': Store, account: string, emails: seq<Email>, a: Key, b: Key)
    requires Passes(s, s', account, emails)
    ensures s'.messages.Keys == s.messages.Keys + Ids(account, emails)
    ensures SameThread(s, a, b) ==> SameThread(s', a, b)
  {
    hide Leads;
    var states: seq<Store>, evs: seq<Event> :|
      Synchronises(states, evs, account, emails) && states[0] == s && states[|evs|] == s';
    SynchronisesIsBehavior(states, evs, account, emails);
    SynchronisedIds(states, evs, account, emails);
    Conserved(states, evs, |evs|);
    assert evs[..|evs|] == evs;
    if SameThread(s, a, b) {
      NeverSplitBetween(states, evs, 0, |evs|, a, b);
    }
  }

  /**
   Running a completed backfill again stores nothing new and splits no thread, whatever the headers, whatever was stored
   before, and however far the second run gets.
   */
  lemma RebackfillCoarsens(account: string, listing: seq<Email>, limit: nat, limit': nat,
                           stores: seq<Store>, positions: seq<nat>, stores': seq<Store>, positions': seq<nat>,
                           n: nat, a: Key, b: Key)
    requires IsBackfill(listing, limit, account, stores, positions) && positions[|positions| - 1] == |listing|
    requires IsBackfill(listing, limit', account, stores', positions') && stores'[0] == stores[|stores| - 1]
    requires n < |stores'|
    ensures stores'[n].messages.Keys == stores'[0].messages.Keys == stores[0].messages.Keys + Ids(account, listing)
    ensures SameThread(stores'[0], a, b) ==> SameThread(stores'[n], a, b)
  {
    hide Passes, BatchStep;
    var first := OnePass(listing, limit, account, stores, positions, |stores| - 1);
    var again := OnePass(listing, limit', account, stores', positions', n);
    assert listing[..|listing|] == listing;
    PassKeeps(stores[0], stores'[0], account, first, a, b);
    PassKeeps(stores'[0], stores'[n], account, again, a, b);
    assert Ids(account, again) <= Ids(account, listing) == Ids(account, first);
  }

  /**
   From an empty store, with every email linked to whatever its lookup may settle on, a completed second run leaves
   exactly the connected components as threads, however the two runs were cut into batches and interrupted.
   */
  lemma RebackfillConverges(u: Universe, account: string, listing: seq<Email>, limit: nat, limit': nat,
                            stores: seq<Store>, positions: seq<nat>, stores': seq<Store>, positions': seq<nat>)
    requires MentionsAdjacent(u) && SubjectsAdjacent(u) && Listed(u, account, listing)
    requires IsBackfill(listing, limit, account, stores, positions) && stores[0] == EMPTY
    requires IsBackfill(listing, limit', account, stores', positions') && stores'[0] == stores[|stores| - 1]
    requires positions[|positions| - 1] == |listing| == positions'[|positions'| - 1]
    ensures IsComponents(stores'[|stores'| - 1], u)
  {
    hide Leads, IsComponents, BatchStep, MentionsAdjacent, SubjectsAdjacent;
    var n, n' := |stores| - 1, |stores'| - 1;
    var first := OnePass(listing, limit, account, stores, positions, n);
    var again := OnePass(listing, limit', account, stores', positions', n');
    assert listing[..|listing|] == listing;
    var states: seq<Store>, evs: seq<Event> :|
      Synchronises(states, evs, account, first) && states[0] == EMPTY && states[|evs|] == stores[n];
    var later: seq<Store>, pass: seq<Event> :|
      Synchronises(later, pass, account, again) && later[0] == stores[n] && later[|pass|] == stores'[n'];
    SynchronisedEvents(states, evs, account, first, u);
    SynchronisedEvents(later, pass, account, again, u);
    assert Ids(account, first) == Ids(account, again);
    SynchronisesIsBehavior(states, evs, account, first);
    SynchronisesIsBehavior(later, pass, account, again);
    AdjacentConverge(u, states, evs, later, pass);
  }

  lemma SynchronisesIsBehavior(states: seq<Store>, evs: seq<Event>, account: string, emails: seq<Email>)
    requires Synchronises(states, evs, account, emails)
    ensures IsBehavior(states, evs)
  {}
}
