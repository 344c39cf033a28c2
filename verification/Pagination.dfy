/**
 Keyset pages over an account's threads, newest first, and what a reader who follows the cursors is given while the
 table changes under it.
 */
module Pagination {
  import opened Wrappers

  /** A thread row as the listing sees it: its account, when it last had mail, and the mailboxes its messages are in. */
  datatype Thread = Thread(account: string, lastMessageAt: int, mailboxes: set<string>)

  type Table = map<nat, Thread>

  /** The sort key and the cursor: when the thread last had mail, then its id. */
  datatype Key = Key(at: int, id: nat)

  predicate Less(a: Key, b: Key) {
    a.at < b.at || (a.at == b.at && a.id < b.id)
  }

  /** The rows the filter lets through. An empty mailbox means no filter. */
  predicate Matches(t: Thread, account: string, mailbox: string) {
    t.account == account && (mailbox == "" || mailbox in t.mailboxes)
  }

  function Keys(table: Table, account: string, mailbox: string): set<Key> {
    set id <- table | Matches(table[id], account, mailbox) :: Key(table[id].lastMessageAt, id)
  }

  predicate Follows(k: Key, cursor: Option<Key>) {
    cursor.None? || Less(k, cursor.value)
  }

  function Eligible(keys: set<Key>, cursor: Option<Key>): set<Key> {
    set k <- keys | Follows(k, cursor)
  }

  /** The service's limit. */
  function Limit(requested: int): nat {
    if requested <= 0 || requested > 100 then 50 else requested
  }

  // ---------------------------------------------------------------- one page

  predicate Descending(page: seq<Key>) {
    forall i, j :: 0 <= i < j < |page| ==> Less(page[j], page[i])
  }

  /** The first keys of a set in descending order, as many as the limit lets through. */
  ghost predicate IsPage(page: seq<Key>, keys: set<Key>, limit: nat) {
    && Descending(page)
    && |page| <= limit
    && (forall k <- page :: k in keys)
    && (|page| < limit ==> forall k <- keys :: k in page)
    && (forall k <- keys, i | k !in page && 0 <= i < |page| :: Less(k, page[i]))
  }

  function Newest(keys: set<Key>): (k: Key)
    requires keys != {}
    ensures k in keys && forall other <- keys :: other == k || Less(other, k)
  {
    NewestExists(keys);
    var k :| k in keys && forall other <- keys :: other == k || Less(other, k);
    k
  }

  lemma {:induction false} NewestExists(keys: set<Key>)
    requires keys != {}
    ensures exists k <- keys :: forall other <- keys :: other == k || Less(other, k)
  {
    var any :| any in keys;
    var rest := keys - {any};
    if rest == {} {
      assert forall other <- keys :: other == any || other in rest;
    } else {
      NewestExists(rest);
      var best :| best in rest && forall other <- rest :: other == best || Less(other, best);
      var k := if Less(any, best) then best else any;
      forall other <- keys ensures other == k || Less(other, k) {
        assert other in rest || other == any;
      }
      assert k in keys;
    }
  }

  /** ORDER BY the key descending, LIMIT. */
  function Page(keys: set<Key>, limit: nat): seq<Key>
    decreases limit
  {
    if limit == 0 || keys == {} then []
    else [Newest(keys)] + Page(keys - {Newest(keys)}, limit - 1)
  }

  lemma {:induction false} PageIsPage(keys: set<Key>, limit: nat)
    ensures IsPage(Page(keys, limit), keys, limit)
    decreases limit
  {
    if limit > 0 && keys != {} {
      var top := Newest(keys);
      var rest := Page(keys - {top}, limit - 1);
      PageIsPage(keys - {top}, limit - 1);
      assert Page(keys, limit) == [top] + rest;
      forall i, j | 0 <= i < j < |rest| + 1 ensures Less(([top] + rest)[j], ([top] + rest)[i]) {
        assert ([top] + rest)[j] == rest[j - 1] && rest[j - 1] in keys - {top};
      }
      forall k <- keys ensures k == top || k in keys - {top} {}
    }
  }

  /** Nothing else is such a page. */
  lemma {:induction false} PageIsOnly(page: seq<Key>, keys: set<Key>, limit: nat)
    requires IsPage(page, keys, limit)
    ensures page == Page(keys, limit)
    decreases limit
  {
    if page == [] {
      assert limit > 0 ==> forall k <- keys :: k in page;
    } else {
      assert page[0] in page;
      FirstIsNewest(page, keys, limit);
      RestIsPage(page, keys, limit);
      PageIsOnly(page[1..], keys - {page[0]}, limit - 1);
    }
  }

  lemma FirstIsNewest(page: seq<Key>, keys: set<Key>, limit: nat)
    requires IsPage(page, keys, limit) && page != []
    ensures keys != {} && page[0] == Newest(keys)
  {
    assert page[0] in page;
    var top := Newest(keys);
    if top in page {
      var i :| 0 <= i < |page| && page[i] == top;
      assert i > 0 ==> Less(page[i], page[0]);
    } else {
      assert Less(top, page[0]);
    }
  }

  lemma RestIsPage(page: seq<Key>, keys: set<Key>, limit: nat)
    requires IsPage(page, keys, limit) && page != []
    ensures IsPage(page[1..], keys - {page[0]}, limit - 1)
  {
    var rest := page[1..];
    forall k <- rest ensures k in keys - {page[0]} {
      var i :| 0 <= i < |rest| && rest[i] == k;
      assert k == page[i + 1] && Less(page[i + 1], page[0]);
    }
    forall k <- keys - {page[0]} ensures k in page <==> k in rest {
      assert page == [page[0]] + rest;
    }
  }

  /** The rows of one request. */
  function PageOf(table: Table, account: string, mailbox: string, requested: int, cursor: Option<Key>): seq<Key> {
    Page(Eligible(Keys(table, account, mailbox), cursor), Limit(requested))
  }

  /** The service's listing: the database's page, row by row, and the last row's key as the next cursor. */
  method ListThreads(table: Table, account: string, mailbox: string, requested: int, cursor: Option<Key>)
    returns (threads: seq<nat>, next: Option<Key>)
    ensures var page := PageOf(table, account, mailbox, requested, cursor);
            && |threads| == |page| && (forall i :: 0 <= i < |page| ==> threads[i] == page[i].id)
            && next == LastOf(page)
            && IsPage(page, Eligible(Keys(table, account, mailbox), cursor), Limit(requested))
    ensures |threads| <= if 1 <= requested <= 100 then requested else 50
    ensures forall id <- threads ::
              && id in table && table[id].account == account && (mailbox == "" || mailbox in table[id].mailboxes)
              && (cursor.Some? ==> table[id].lastMessageAt < cursor.value.at
                                   || (table[id].lastMessageAt == cursor.value.at && id < cursor.value.id))
    ensures forall i, j :: 0 <= i < j < |threads| ==>
                             var a, b := table[threads[i]].lastMessageAt, table[threads[j]].lastMessageAt;
                             a > b || (a == b && threads[i] > threads[j])
    ensures forall id <- table | table[id].account == account && (mailbox == "" || mailbox in table[id].mailboxes)
                                 && (cursor.Some? ==> table[id].lastMessageAt < cursor.value.at
                                                      || (table[id].lastMessageAt == cursor.value.at
                                                          && id < cursor.value.id)) && id !in threads ::
              && |threads| == (if 1 <= requested <= 100 then requested else 50)
              && var last := threads[|threads| - 1];
                 table[id].lastMessageAt < table[last].lastMessageAt
                 || (table[id].lastMessageAt == table[last].lastMessageAt && id < last)
    ensures next == if threads == [] then None
                    else Some(Key(table[threads[|threads| - 1]].lastMessageAt, threads[|threads| - 1]))
  {
    var rows := Page(Eligible(Keys(table, account, mailbox), cursor), Limit(requested));
    PageIsPage(Eligible(Keys(table, account, mailbox), cursor), Limit(requested));
    threads, next := [], None;
    for i := 0 to |rows|
      invariant |threads| == i && forall j :: 0 <= j < i ==> threads[j] == rows[j].id
      invariant next == if i == |rows| then LastOf(rows) else None
    {
      threads := threads + [rows[i].id];
      if i == |rows| - 1 {
        next := Some(rows[i]);
      }
    }
    ListedRows(table, account, mailbox, requested, cursor, rows, threads);
  }

  /** What is listed, said of the threads: which they are, in which order, and what is left for later. */
  lemma ListedRows(table: Table, account: string, mailbox: string, requested: int, cursor: Option<Key>,
                   rows: seq<Key>, threads: seq<nat>)
    requires IsPage(rows, Eligible(Keys(table, account, mailbox), cursor), Limit(requested))
    requires |threads| == |rows| && forall i :: 0 <= i < |rows| ==> threads[i] == rows[i].id
    ensures |threads| <= if 1 <= requested <= 100 then requested else 50
    ensures forall id <- threads ::
              && id in table && table[id].account == account && (mailbox == "" || mailbox in table[id].mailboxes)
              && (cursor.Some? ==> table[id].lastMessageAt < cursor.value.at
                                   || (table[id].lastMessageAt == cursor.value.at && id < cursor.value.id))
    ensures forall i, j :: 0 <= i < j < |threads| ==>
                             var a, b := table[threads[i]].lastMessageAt, table[threads[j]].lastMessageAt;
                             a > b || (a == b && threads[i] > threads[j])
    ensures forall id <- table | table[id].account == account && (mailbox == "" || mailbox in table[id].mailboxes)
                                 && (cursor.Some? ==> table[id].lastMessageAt < cursor.value.at
                                                      || (table[id].lastMessageAt == cursor.value.at
                                                          && id < cursor.value.id)) && id !in threads ::
              && |threads| == (if 1 <= requested <= 100 then requested else 50)
              && var last := threads[|threads| - 1];
                 table[id].lastMessageAt < table[last].lastMessageAt
                 || (table[id].lastMessageAt == table[last].lastMessageAt && id < last)
    ensures forall i :: 0 <= i < |rows| ==> rows[i] == Key(table[threads[i]].lastMessageAt, threads[i])
  {
    forall i | 0 <= i < |rows|
      ensures threads[i] in table && rows[i] == Key(table[threads[i]].lastMessageAt, threads[i])
      ensures Matches(table[threads[i]], account, mailbox) && Follows(rows[i], cursor)
    {
      assert rows[i] in rows;
    }
    forall id <- table | Matches(table[id], account, mailbox) && Follows(Key(table[id].lastMessageAt, id), cursor)
                         && id !in threads
      ensures Key(table[id].lastMessageAt, id) in Eligible(Keys(table, account, mailbox), cursor)
      ensures Key(table[id].lastMessageAt, id) !in rows
    {}
  }

  function LastOf(page: seq<Key>): Option<Key> {
    if page == [] then None else Some(page[|page| - 1])
  }

  // ---------------------------------------------------------------- following the cursors

  /** One request of a scan: the keys the filter matched then, the limit, and what came back. */
  datatype Visit = Visit(keys: set<Key>, limit: nat, page: seq<Key>)

  /** No two threads share an id. */
  predicate Sound(keys: set<Key>) {
    forall a <- keys, b <- keys :: a.id == b.id ==> a == b
  }

  lemma KeysAreSound(table: Table, account: string, mailbox: string)
    ensures Sound(Keys(table, account, mailbox))
  {
  }

  function Cursor(scan: seq<Visit>, i: nat): Option<Key>
    requires i <= |scan|
  {
    if i == 0 then None else LastOf(scan[i - 1].page)
  }

  /** The reader starts without a cursor and follows each page's own, until a page is empty. */
  ghost predicate IsScan(scan: seq<Visit>) {
    forall i: nat :: i < |scan| ==> IsVisit(scan[i], Cursor(scan, i)) && (i > 0 ==> Cursor(scan, i).Some?)
  }

  ghost predicate IsVisit(v: Visit, cursor: Option<Key>) {
    Sound(v.keys) && v.limit > 0 && IsPage(v.page, Eligible(v.keys, cursor), v.limit)
  }

  ghost predicate Finished(scan: seq<Visit>) {
    scan != [] && scan[|scan| - 1].page == []
  }

  /** A key the page could have shown is on it exactly when it does not follow the page's last. */
  lemma ShownOrFollows(page: seq<Key>, keys: set<Key>, limit: nat, k: Key)
    requires IsPage(page, keys, limit) && limit > 0 && k in keys
    ensures page != [] && (k in page <==> !Less(k, page[|page| - 1]))
  {
    if k in page {
      var i :| 0 <= i < |page| && page[i] == k;
      assert i < |page| - 1 ==> Less(page[|page| - 1], page[i]);
    }
  }

  lemma PageEndsBelow(v: Visit, cursor: Key)
    requires IsVisit(v, Some(cursor)) && v.page != []
    ensures Less(v.page[|v.page| - 1], cursor)
  {
    var last := v.page[|v.page| - 1];
    assert last in v.page && last in Eligible(v.keys, Some(cursor));
  }

  /** The cursor only falls. */
  lemma CursorFalls(scan: seq<Visit>, i: nat)
    requires IsScan(scan) && 0 < i < |scan| && Cursor(scan, i + 1).Some?
    ensures Cursor(scan, i).Some? && Less(Cursor(scan, i + 1).value, Cursor(scan, i).value)
  {
    hide IsVisit;
    assert IsVisit(scan[i], Cursor(scan, i));
    PageEndsBelow(scan[i], Cursor(scan, i).value);
  }

  // ---------------------------------------------------------------- one thread, through a whole scan

  predicate Has(keys: set<Key>, id: nat) {
    exists k <- keys :: k.id == id
  }

  function KeyOf(keys: set<Key>, id: nat): (k: Key)
    requires Sound(keys) && Has(keys, id)
    ensures k in keys && k.id == id
  {
    var k :| k in keys && k.id == id;
    k
  }

  /** The thread is in the table at every request, and its time never falls between two of them. */
  ghost predicate Rises(scan: seq<Visit>, id: nat) {
    && (forall i :: 0 <= i < |scan| ==> Sound(scan[i].keys) && Has(scan[i].keys, id))
    && (forall i :: 0 < i < |scan| ==> !Less(KeyOf(scan[i].keys, id), KeyOf(scan[i - 1].keys, id)))
  }

  ghost predicate Shown(scan: seq<Visit>, i: nat, id: nat)
    requires i < |scan|
  {
    exists k <- scan[i].page :: k.id == id
  }

  ghost predicate Pending(scan: seq<Visit>, i: nat, id: nat)
    requires i < |scan| && Sound(scan[i].keys) && Has(scan[i].keys, id)
  {
    Follows(KeyOf(scan[i].keys, id), Cursor(scan, i))
  }

  /** Between two requests the thread jumped from after the cursor to before it, so that no page had it. */
  ghost predicate Overtaken(scan: seq<Visit>, i: nat, id: nat)
    requires 0 < i < |scan| && Rises(scan, id)
  {
    Cursor(scan, i).Some? && Less(KeyOf(scan[i - 1].keys, id), Cursor(scan, i).value) && !Pending(scan, i, id)
  }

  /** A pending thread is either shown or still after the new cursor; a thread once passed is neither again. */
  lemma OneVisit(scan: seq<Visit>, i: nat, id: nat)
    requires IsScan(scan) && Rises(scan, id) && i < |scan|
    ensures Shown(scan, i, id) ==> Pending(scan, i, id)
    ensures Pending(scan, i, id) ==> scan[i].page != []
    ensures Pending(scan, i, id) ==>
              (Shown(scan, i, id) <==> !Less(KeyOf(scan[i].keys, id), Cursor(scan, i + 1).value))
  {
    var v, k := scan[i], KeyOf(scan[i].keys, id);
    assert IsVisit(v, Cursor(scan, i));
    var eligible := Eligible(v.keys, Cursor(scan, i));
    if Shown(scan, i, id) {
      var shown :| shown in v.page && shown.id == id;
      assert shown in eligible;
      assert shown == k;
    }
    if Pending(scan, i, id) {
      assert k in eligible;
      ShownOrFollows(v.page, eligible, v.limit, k);
    }
  }

  /** Once the cursor has passed a thread whose time does not fall, no later page shows it. */
  lemma {:induction false} PassedForGood(scan: seq<Visit>, i: nat, j: nat, id: nat)
    requires IsScan(scan) && Rises(scan, id) && 0 < i <= j < |scan|
    requires !Less(KeyOf(scan[i - 1].keys, id), Cursor(scan, i).value) || !Pending(scan, i, id)
    ensures !Pending(scan, j, id)
    decreases j - i
  {
    hide IsVisit, KeyOf, Has;
    assert !Pending(scan, i, id);
    if i < j {
      assert Cursor(scan, i + 1).Some?;
      CursorFalls(scan, i);
      PassedForGood(scan, i + 1, j, id);
    }
  }

  /** Whatever else is inserted, deleted or bumped: no thread is shown twice. */
  lemma NeverTwice(scan: seq<Visit>, i: nat, j: nat, id: nat)
    requires IsScan(scan) && Rises(scan, id) && i < j < |scan| && Shown(scan, i, id)
    ensures !Shown(scan, j, id)
  {
    hide IsScan, Rises, KeyOf, Shown, Less, Pending;
    OneVisit(scan, i, id);
    OneVisit(scan, j, id);
    PassedForGood(scan, i + 1, j, id);
  }

  /** A thread not shown and not overtaken is pending from the start of the scan to its end. */
  lemma {:induction false} StaysPending(scan: seq<Visit>, i: nat, id: nat)
    requires IsScan(scan) && Rises(scan, id) && i < |scan|
    requires forall j :: 0 <= j < i ==> !Shown(scan, j, id)
    requires forall j :: 0 < j <= i ==> !Overtaken(scan, j, id)
    ensures Pending(scan, i, id)
  {
    hide IsVisit, KeyOf, Has, Shown;
    if i > 0 {
      StaysPending(scan, i - 1, id);
      OneVisit(scan, i - 1, id);
      assert !Shown(scan, i - 1, id) && !Overtaken(scan, i, id);
    }
  }

  /** A finished scan shows a thread exactly when it was never bumped from after the cursor to before it. */
  lemma ShownIffNotOvertaken(scan: seq<Visit>, id: nat)
    requires IsScan(scan) && Finished(scan) && Rises(scan, id)
    ensures (exists i :: 0 <= i < |scan| && Shown(scan, i, id))
            <==> (forall i :: 0 < i < |scan| ==> !Overtaken(scan, i, id))
  {
    hide IsVisit, KeyOf, Has, Shown, Rises;
    if i: nat :| i < |scan| && Shown(scan, i, id) {
      forall j | 0 < j < |scan| ensures !Overtaken(scan, j, id) {
        OneVisit(scan, i, id);
        if j <= i {
          if Overtaken(scan, j, id) {
            PassedForGood(scan, j, i, id);
          }
        } else {
          NotOvertakenAfter(scan, i, j, id);
        }
      }
    } else {
      var last := |scan| - 1;
      if forall i :: 0 < i < |scan| ==> !Overtaken(scan, i, id) {
        StaysPending(scan, last, id);
        OneVisit(scan, last, id);
        assert false;
      }
    }
  }

  /** After the request that showed it, the cursor stays at or below the thread. */
  lemma {:induction false} NotOvertakenAfter(scan: seq<Visit>, i: nat, j: nat, id: nat)
    requires IsScan(scan) && Rises(scan, id) && i < j < |scan| && Shown(scan, i, id)
    ensures Cursor(scan, j).Some? && !Less(KeyOf(scan[j - 1].keys, id), Cursor(scan, j).value)
    decreases j
  {
    hide IsVisit, KeyOf, Has, Shown;
    assert Cursor(scan, j).Some?;
    if i + 1 == j {
      OneVisit(scan, i, id);
    } else {
      NotOvertakenAfter(scan, i, j - 1, id);
      CursorFalls(scan, j - 1);
      assert !Less(KeyOf(scan[j - 1].keys, id), KeyOf(scan[j - 2].keys, id));
    }
  }

  /** A thread left alone is shown exactly once, however the rest of the table changes. */
  lemma UnchangedShownOnce(scan: seq<Visit>, id: nat, key: Key)
    requires IsScan(scan) && Finished(scan)
    requires key.id == id && forall i :: 0 <= i < |scan| ==> key in scan[i].keys
    ensures exists i :: 0 <= i < |scan| && Shown(scan, i, id)
                        && forall j :: 0 <= j < |scan| && j != i ==> !Shown(scan, j, id)
  {
    forall i | 0 <= i < |scan| ensures Has(scan[i].keys, id) && KeyOf(scan[i].keys, id) == key {
      assert key in scan[i].keys;
    }
    ShownIffNotOvertaken(scan, id);
    var i :| 0 <= i < |scan| && Shown(scan, i, id);
    forall j | 0 <= j < |scan| && j != i ensures !Shown(scan, j, id) {
      if Shown(scan, j, id) {
        if i < j { NeverTwice(scan, i, j, id); } else { NeverTwice(scan, j, i, id); }
      }
    }
  }

  // ---------------------------------------------------------------- a table that stays as it is

  function Concat(scan: seq<Visit>): seq<Key> {
    if scan == [] then [] else Concat(scan[..|scan| - 1]) + scan[|scan| - 1].page
  }

  /** Every page so far had something on it. */
  ghost predicate Going(scan: seq<Visit>) {
    scan != [] ==> scan[|scan| - 1].page != []
  }

  ghost predicate FixedTable(scan: seq<Visit>, keys: set<Key>) {
    forall v <- scan :: v.keys == keys
  }

  lemma Shorter(scan: seq<Visit>, keys: set<Key>)
    requires IsScan(scan) && FixedTable(scan, keys) && scan != []
    ensures IsScan(scan[..|scan| - 1]) && FixedTable(scan[..|scan| - 1], keys) && Going(scan[..|scan| - 1])
    ensures IsVisit(scan[|scan| - 1], Cursor(scan[..|scan| - 1], |scan| - 1)) && scan[|scan| - 1].keys == keys
  {
    hide IsVisit;
    var shorter := scan[..|scan| - 1];
    forall i: nat | i < |shorter|
      ensures IsVisit(shorter[i], Cursor(shorter, i)) && (i > 0 ==> Cursor(shorter, i).Some?)
    {
      assert shorter[i] == scan[i] && Cursor(shorter, i) == Cursor(scan, i);
    }
    assert IsVisit(scan[|scan| - 1], Cursor(scan, |scan| - 1));
    assert |scan| > 1 ==> Cursor(scan, |scan| - 1).Some?;
  }

  /** One more page in front of those shown so far. */
  lemma OneMore(shown: seq<Key>, keys: set<Key>, cursor: Option<Key>, v: Visit)
    requires IsVisit(v, cursor) && v.keys == keys
    requires Descending(shown) && forall k :: k in shown <==> k in keys && !Follows(k, cursor)
    ensures Descending(shown + v.page)
    ensures forall k :: k in shown + v.page <==> k in keys && (v.page != [] ==> !Less(k, v.page[|v.page| - 1]))
  {
    var all := shown + v.page;
    forall i, j | 0 <= i < j < |all| ensures Less(all[j], all[i]) {
      if i < |shown| <= j {
        assert all[i] in shown && all[j] in v.page;
      }
    }
    forall k ensures k in all <==> k in keys && (v.page != [] ==> !Less(k, v.page[|v.page| - 1])) {
      if k in keys && Follows(k, cursor) {
        ShownOrFollows(v.page, Eligible(keys, cursor), v.limit, k);
      } else if k in shown && v.page != [] {
        assert v.page[|v.page| - 1] in v.page;
      }
    }
  }

  /** What an unfinished scan has shown are the keys down to its cursor, in order. */
  lemma {:induction false} ScanSoFar(scan: seq<Visit>, keys: set<Key>)
    requires IsScan(scan) && FixedTable(scan, keys) && Going(scan)
    ensures Descending(Concat(scan)) && |scan| <= |Concat(scan)|
    ensures forall k :: k in Concat(scan) <==> k in keys && !Follows(k, Cursor(scan, |scan|))
  {
    hide IsVisit, IsScan, Descending;
    if scan == [] {
      NothingDescends();
    } else {
      Shorter(scan, keys);
      var shorter := scan[..|scan| - 1];
      ScanSoFar(shorter, keys);
      OneMore(Concat(shorter), keys, Cursor(shorter, |shorter|), scan[|scan| - 1]);
    }
  }

  lemma NothingDescends()
    ensures Descending([])
  {
  }

  lemma {:induction false} DescendingFits(page: seq<Key>, keys: set<Key>)
    requires Descending(page) && forall k <- page :: k in keys
    ensures |page| <= |keys|
  {
    if page != [] {
      var last := page[|page| - 1];
      var rest := page[..|page| - 1];
      assert last in page;
      forall k <- rest ensures k in keys - {last} {
        var i :| 0 <= i < |rest| && rest[i] == k;
        assert k == page[i] && k in page;
      }
      DescendingFits(rest, keys - {last});
    }
  }

  /** While no page is empty the scan is no longer than the table: following the cursors ends. */
  lemma ScanEnds(scan: seq<Visit>, keys: set<Key>)
    requires IsScan(scan) && FixedTable(scan, keys) && Going(scan)
    ensures |scan| <= |keys|
  {
    ScanSoFar(scan, keys);
    DescendingFits(Concat(scan), keys);
  }

  /** A finished scan of a fixed table shows every matching thread exactly once, newest first. */
  lemma FullScan(scan: seq<Visit>, keys: set<Key>)
    requires IsScan(scan) && FixedTable(scan, keys) && Finished(scan)
    ensures Descending(Concat(scan))
    ensures forall k :: k in Concat(scan) <==> k in keys
  {
    hide IsVisit, IsScan, Descending;
    Shorter(scan, keys);
    var shorter := scan[..|scan| - 1];
    ScanSoFar(shorter, keys);
    OneMore(Concat(shorter), keys, Cursor(shorter, |shorter|), scan[|scan| - 1]);
  }

  // ---------------------------------------------------------------- a reader of the listing

  /** One request of a reader: the table as it is then, and the limit asked for. */
  datatype Request = Request(table: Table, requested: int)

  /** What the reader is given, asking each time with the last cursor. */
  function Read(account: string, mailbox: string, requests: seq<Request>): (scan: seq<Visit>)
    ensures |scan| == |requests|
  {
    if requests == [] then []
    else
      var before := Read(account, mailbox, requests[..|requests| - 1]);
      var r := requests[|requests| - 1];
      before + [Visit(Keys(r.table, account, mailbox), Limit(r.requested),
                      PageOf(r.table, account, mailbox, r.requested, Cursor(before, |before|)))]
  }

  /** The reader goes on only after a page with something on it. */
  ghost predicate GoesOn(scan: seq<Visit>) {
    forall i: nat :: i + 1 < |scan| ==> scan[i].page != []
  }

  lemma ScanGoesOn(scan: seq<Visit>, v: Visit)
    requires IsScan(scan) && IsVisit(v, Cursor(scan, |scan|)) && (scan != [] ==> Cursor(scan, |scan|).Some?)
    ensures IsScan(scan + [v])
  {
    hide IsVisit;
    var more := scan + [v];
    forall i: nat | i < |more|
      ensures IsVisit(more[i], Cursor(more, i)) && (i > 0 ==> Cursor(more, i).Some?)
    {
      assert Cursor(more, i) == Cursor(scan, i);
    }
  }

  /** Following the cursors of ListThreads is a scan. */
  lemma {:induction false} ReadIsScan(account: string, mailbox: string, requests: seq<Request>)
    requires GoesOn(Read(account, mailbox, requests))
    ensures IsScan(Read(account, mailbox, requests))
    ensures forall i :: 0 <= i < |requests| ==>
                          Read(account, mailbox, requests)[i].keys == Keys(requests[i].table, account, mailbox)
  {
    hide IsVisit, PageOf, Keys, IsScan;
    if requests == [] {
      assert IsScan([]) by { NothingIsScan(); }
    } else {
      var n := |requests| - 1;
      var before, scan := Read(account, mailbox, requests[..n]), Read(account, mailbox, requests);
      assert scan[..n] == before;
      assert forall i: nat :: i + 1 < |before| ==> before[i] == scan[i];
      ReadIsScan(account, mailbox, requests[..n]);
      assert n > 0 ==> before[n - 1] == scan[n - 1] && scan[n - 1].page != [];
      VisitIsVisit(requests[n].table, account, mailbox, requests[n].requested, Cursor(before, n));
      ScanGoesOn(before, scan[n]);
      assert scan == before + [scan[n]];
    }
  }

  lemma NothingIsScan()
    ensures IsScan([])
  {}

  lemma VisitIsVisit(table: Table, account: string, mailbox: string, requested: int, cursor: Option<Key>)
    ensures IsVisit(Visit(Keys(table, account, mailbox), Limit(requested),
                          PageOf(table, account, mailbox, requested, cursor)), cursor)
  {
    KeysAreSound(table, account, mailbox);
    PageIsPage(Eligible(Keys(table, account, mailbox), cursor), Limit(requested));
  }

  /** Whatever changes meanwhile, a reader who goes on to the empty page is given an unchanged thread exactly once. */
  lemma ReaderSeesOnce(account: string, mailbox: string, requests: seq<Request>, id: nat, thread: Thread)
    requires GoesOn(Read(account, mailbox, requests)) && Finished(Read(account, mailbox, requests))
    requires Matches(thread, account, mailbox)
    requires forall r <- requests :: id in r.table && r.table[id] == thread
    ensures var scan := Read(account, mailbox, requests);
            exists i :: 0 <= i < |scan| && Shown(scan, i, id)
                        && forall j :: 0 <= j < |scan| && j != i ==> !Shown(scan, j, id)
  {
    hide IsScan, Finished, Shown;
    var scan := Read(account, mailbox, requests);
    ReadIsScan(account, mailbox, requests);
    var key := Key(thread.lastMessageAt, id);
    forall i | 0 <= i < |scan| ensures key in scan[i].keys {
      assert requests[i] in requests;
    }
    UnchangedShownOnce(scan, id, key);
  }

  /** And a reader of a table that stays as it is, exactly the matching threads, newest first. */
  lemma ReaderSeesAll(account: string, mailbox: string, requests: seq<Request>, table: Table)
    requires GoesOn(Read(account, mailbox, requests)) && Finished(Read(account, mailbox, requests))
    requires forall r <- requests :: r.table == table
    ensures var shown := Concat(Read(account, mailbox, requests));
            Descending(shown) && forall k :: k in shown <==> k in Keys(table, account, mailbox)
  {
    hide IsScan, Finished, Descending, Keys;
    var scan := Read(account, mailbox, requests);
    ReadIsScan(account, mailbox, requests);
    forall v <- scan ensures v.keys == Keys(table, account, mailbox) {
      var i :| 0 <= i < |scan| && scan[i] == v;
      assert requests[i] in requests;
    }
    FullScan(scan, Keys(table, account, mailbox));
  }
}
