/**
 Creating, disabling and enabling an account: a workflow of several transactions that may stop between any two of them
 and be run again.
 */
module Activation {
  import opened Wrappers

  datatype Status = Provisioning | Syncing | Active | Disabled

  datatype Mailbox = Mailbox(status: Status, accountId: string, checkpoint: Option<string>)

  datatype AddressStatus = Available | Reserved | Claimed | Blocked

  datatype Address = Address(status: AddressStatus, claimedBy: Option<string>, reservedBy: Option<string>)

  /** Folder ids by role; and, as history, the account they belong to and what the mail server said it has. */
  datatype Mappings = Mappings(folders: map<string, string>, account: string, discovered: map<string, string>)

  /** The rows the workflow works on, for one mailbox. Users are the ids of those still pending. */
  datatype Rows = Rows(domainId: string, mailbox: Mailbox, address: Address, mappings: Mappings,
                       syncState: Option<string>, pendingUsers: set<string>)

  /** Every folder that was discovered is mapped to its id, and besides them only the archive. */
  predicate FullyMapped(m: Mappings) {
    && m.folders.Keys == m.discovered.Keys + {"archive"}
    && forall role <- m.discovered :: m.folders[role] == m.discovered[role]
  }

  /** Everything an active mailbox needs. */
  predicate Ready(r: Rows) {
    && r.mailbox.accountId != ""
    && r.address.status.Claimed? && r.address.reservedBy.None?
    && r.mappings.account == r.mailbox.accountId && FullyMapped(r.mappings)
    && r.mailbox.checkpoint.Some? && r.syncState.Some?
  }

  predicate Safe(r: Rows) {
    r.mailbox.status.Active? ==> Ready(r)
  }

  // ---------------------------------------------------------------- transactions

  datatype Write =
    | SetDomain(id: string)
    | Provision(account: string)
    | SaveMappings(mappings: Mappings)
    | SetStatus(status: Status)
    | Activate(state: string)
    | ActivateUser

  function Claimant(a: Address): Option<string> {
    if a.claimedBy.Some? then a.claimedBy else a.reservedBy
  }

  function Apply(r: Rows, w: Write): Rows {
    match w
    case SetDomain(id) => r.(domainId := id)
    case Provision(account) =>
      r.(mailbox := r.mailbox.(status := Provisioning, accountId := account),
      address := Address(Claimed, Claimant(r.address), None))
    case SaveMappings(mappings) => r.(mappings := mappings)
    case SetStatus(status) => r.(mailbox := r.mailbox.(status := status))
    case Activate(state) =>
      r.(mailbox := r.mailbox.(status := Active, checkpoint := Some(state)), syncState := Some(state))
    case ActivateUser =>
      if r.address.claimedBy.Some? then r.(pendingUsers := r.pendingUsers - {r.address.claimedBy.value}) else r
  }

  function ApplyAll(r: Rows, ws: seq<Write>): Rows
    decreases |ws|
  {
    if ws == [] then r else ApplyAll(Apply(r, ws[0]), ws[1..])
  }

  lemma {:induction false} ApplyInTurn(r: Rows, a: seq<Write>, b: seq<Write>)
    ensures ApplyAll(r, a + b) == ApplyAll(ApplyAll(r, a), b)
    decreases |a|
  {
    if a == [] {
      assert a + b == b;
    } else {
      assert (a + b)[0] == a[0] && (a + b)[1..] == a[1..] + b;
      ApplyInTurn(Apply(r, a[0]), a[1..], b);
    }
  }

  // ---------------------------------------------------------------- the mail server's answers

  /** What the mail server says to each request of one run; None is an error. */
  datatype Answers = Answers(
    localPart: string, domain: string,
    findDomain: Option<string>, createDomain: Option<string>,
    stillThere: bool,
    findAccount: Option<string>, createAccount: Option<string>,
    discover: Option<map<string, string>>, createArchive: Option<string>,
    session: Option<string>)

  function DomainId(r: Rows, a: Answers): Option<string> {
    if r.domainId != "" then Some(r.domainId)
    else if a.findDomain.Some? && a.findDomain.value != "" then a.findDomain
    else a.createDomain
  }

  function Name(a: Answers): string {
    a.localPart + "@" + a.domain
  }

  /** The account found by name, or made; an answer without an id falls back on the account's name. */
  function AccountId(a: Answers): Option<string> {
    if a.findAccount.Some? && a.findAccount.value != "" then a.findAccount
    else if a.createAccount == Some("") then Some(Name(a))
    else a.createAccount
  }

  function Folders(a: Answers): Option<map<string, string>> {
    if a.discover.None? || "archive" in a.discover.value then a.discover
    else if a.createArchive.None? then None
    else Some(a.discover.value["archive" := a.createArchive.value])
  }

  predicate Skips(r: Rows, a: Answers) {
    r.mailbox.accountId != "" && r.mailbox.status.Active? && a.stillThere
  }

  /** The transactions of one run, in order, when nothing but the mail server fails. */
  function Plan(r: Rows, a: Answers): seq<Write> {
    if DomainId(r, a).None? then []
    else (if r.domainId == "" then [SetDomain(DomainId(r, a).value)] else []) + AccountPlan(r, a)
  }

  function AccountPlan(r: Rows, a: Answers): seq<Write> {
    if Skips(r, a) || AccountId(a).None? then []
    else [Provision(AccountId(a).value)] + FolderPlan(AccountId(a).value, a)
  }

  function FolderPlan(account: string, a: Answers): seq<Write> {
    if Folders(a).None? then []
    else [SaveMappings(Mappings(Folders(a).value, account, a.discover.value))] + StatePlan(a)
  }

  function StatePlan(a: Answers): seq<Write> {
    [SetStatus(Syncing)] + if a.session.None? then [] else [Activate(a.session.value), ActivateUser]
  }

  function Upto(ws: seq<Write>, n: nat): seq<Write> {
    if n < |ws| then ws[..n] else ws
  }

  /** A run with nothing to do, or stopped before its next statement, changes nothing. */
  lemma Stop(r: Rows, ws: seq<Write>, n: nat)
    requires ws == [] || n == 0
    ensures ApplyAll(r, Upto(ws, n)) == r
  {
  }

  /** A run with statements left makes the next one and goes on. */
  lemma Next(r: Rows, w: Write, rest: seq<Write>, n: nat)
    requires n > 0
    ensures ApplyAll(r, Upto([w] + rest, n)) == ApplyAll(Apply(r, w), Upto(rest, n - 1))
  {
    assert Upto([w] + rest, n) == [w] + Upto(rest, n - 1);
    ApplyInTurn(r, [w], Upto(rest, n - 1));
    assert ApplyAll(Apply(r, w), []) == Apply(r, w);
  }

  /** The account's id: found, or made, or the account's name for want of one. */
  predicate Names(id: string, a: Answers) {
    if a.findAccount.Some? && a.findAccount.value != "" then id == a.findAccount.value
    else a.createAccount.Some? && id == if a.createAccount.value == "" then a.localPart + "@" + a.domain
                                        else a.createAccount.value
  }

  /** Every discovered folder, and the archive made if none was discovered. */
  predicate Maps(folders: map<string, string>, a: Answers) {
    && a.discover.Some? && folders.Keys == a.discover.value.Keys + {"archive"}
    && (forall role <- a.discover.value :: folders[role] == a.discover.value[role])
    && ("archive" !in a.discover.value ==> a.createArchive == Some(folders["archive"]))
  }

  class Worker {
    var domainId: string
    var mailbox: Mailbox
    var address: Address
    var mappings: Mappings
    var syncState: Option<string>
    var pendingUsers: set<string>
    /** How many more statements this run has before it is stopped. */
    var left: nat

    function Db(): Rows
      reads this
    {
      Rows(domainId, mailbox, address, mappings, syncState, pendingUsers)
    }

    /** Whether the run gets to its next statement. */
    method Reaches() returns (ok: bool)
      modifies this`left
      ensures ok == (old(left) > 0) && left == if ok then old(left) - 1 else 0
    {
      ok := left > 0;
      if ok { left := left - 1; }
    }

    /** One run of the job, stopped after so many of its transactions. */
    method ProcessAccountCreate(a: Answers) returns (ok: bool)
      modifies this
      ensures Db() == ApplyAll(old(Db()), Upto(Plan(old(Db()), a), old(left)))
      ensures ok <==> Completes(old(Db()), a) && old(left) >= Needed(old(Db()), a)
      ensures ok && old(domainId) == "" ==>
                if a.findDomain.Some? && a.findDomain.value != "" then domainId == a.findDomain.value
                else a.createDomain == Some(domainId)
      ensures ok && old(domainId) != "" ==> domainId == old(domainId)
      ensures ok && old(mailbox).accountId != "" && old(mailbox).status.Active? && a.stillThere ==>
                Db() == old(Db()).(domainId := domainId)
      ensures ok && !(old(mailbox).accountId != "" && old(mailbox).status.Active? && a.stillThere) ==>
                && a.discover.Some? && mappings.account == mailbox.accountId
                && mappings.folders.Keys == a.discover.value.Keys + {"archive"}
                && (forall role <- a.discover.value :: mappings.folders[role] == a.discover.value[role])
                && ("archive" !in a.discover.value ==> a.createArchive == Some(mappings.folders["archive"]))
                && (if a.findAccount.Some? && a.findAccount.value != "" then mailbox.accountId == a.findAccount.value
                    else a.createAccount.Some?
                         && mailbox.accountId == if a.createAccount.value == "" then a.localPart + "@" + a.domain
                                                 else a.createAccount.value)
                && mailbox.status.Active? && a.session.Some? && mailbox.checkpoint == syncState == a.session
                && address == Address(Claimed, if old(address).claimedBy.Some? then old(address).claimedBy
                                               else old(address).reservedBy, None)
    {
      ok := false;
      if domainId == "" {
        var id := if a.findDomain.Some? && a.findDomain.value != "" then a.findDomain else a.createDomain;
        if id.None? { return; }
        var go := Reaches();
        if !go { return; }
        Next(Db(), SetDomain(id.value), AccountPlan(Db(), a), old(left));
        domainId := id.value;
        assert Db() == Apply(old(Db()), SetDomain(id.value));
      } else {
        assert Plan(Db(), a) == AccountPlan(Db(), a);
      }
      hide ApplyAll, Upto, FolderPlan, Folders;
      ok := EnsureAccount(a);
    }

    /** Nothing to do if the account is there and active; else it is found by name, or made. */
    method EnsureAccount(a: Answers) returns (ok: bool)
      modifies this
      ensures Db() == ApplyAll(old(Db()), Upto(AccountPlan(old(Db()), a), old(left)))
      ensures ok <==> Skips(old(Db()), a) || (Answered(a) && old(left) >= 4)
      ensures domainId == old(domainId)
      ensures old(mailbox).accountId != "" && old(mailbox).status.Active? && a.stillThere ==> ok && Db() == old(Db())
      ensures var skips := old(mailbox).accountId != "" && old(mailbox).status.Active? && a.stillThere;
              ok && !skips ==>
                && Names(mailbox.accountId, a) && mappings.account == mailbox.accountId && Maps(mappings.folders, a)
                && mailbox.status.Active? && a.session.Some? && mailbox.checkpoint == syncState == a.session
      ensures var skips := old(mailbox).accountId != "" && old(mailbox).status.Active? && a.stillThere;
              ok && !skips ==>
                && address == Address(Claimed, if old(address).claimedBy.Some? then old(address).claimedBy
                                               else old(address).reservedBy, None)
                && pendingUsers == if old(left) > 4 && address.claimedBy.Some?
                                   then old(pendingUsers) - {address.claimedBy.value} else old(pendingUsers)
    {
      hide ApplyAll, Upto, FolderPlan, Folders, Maps;
      ghost var start := Db();
      if mailbox.accountId != "" && mailbox.status.Active? && a.stillThere {
        Stop(start, [], old(left));
        return true;
      }
      var account: string;
      if a.findAccount.Some? && a.findAccount.value != "" {
        account := a.findAccount.value;
      } else if a.createAccount.None? {
        Stop(start, [], old(left));
        return false;
      } else {
        account := if a.createAccount.value == "" then Name(a) else a.createAccount.value;
      }
      ok := TakeAccount(account, a);
    }

    /** One transaction for the mailbox and its address, then the rest. */
    method TakeAccount(account: string, a: Answers) returns (ok: bool)
      modifies this
      ensures Db() == ApplyAll(old(Db()), Upto([Provision(account)] + FolderPlan(account, a), old(left)))
      ensures ok <==> Folders(a).Some? && a.session.Some? && old(left) >= 4
      ensures domainId == old(domainId)
      ensures ok ==>
                && mailbox == Mailbox(Active, account, a.session) && syncState == a.session
                && mappings.account == account && Maps(mappings.folders, a)
                && address == Address(Claimed, if old(address).claimedBy.Some? then old(address).claimedBy
                                               else old(address).reservedBy, None)
                && pendingUsers == if old(left) > 4 && address.claimedBy.Some?
                                   then old(pendingUsers) - {address.claimedBy.value} else old(pendingUsers)
    {
      hide ApplyAll, Upto, FolderPlan, Folders, Maps;
      ghost var start := Db();
      var go := Reaches();
      if !go {
        Stop(start, [Provision(account)] + FolderPlan(account, a), 0);
        return false;
      }
      Next(start, Provision(account), FolderPlan(account, a), old(left));
      mailbox := mailbox.(status := Provisioning, accountId := account);
      address := Address(Claimed, if address.claimedBy.Some? then address.claimedBy else address.reservedBy, None);
      assert Db() == Apply(start, Provision(account));
      ok := SaveFolders(account, a);
    }

    /** The folders, with an archive among them. */
    method SaveFolders(account: string, a: Answers) returns (ok: bool)
      modifies this
      ensures Db() == ApplyAll(old(Db()), Upto(FolderPlan(account, a), old(left)))
      ensures ok <==> Folders(a).Some? && a.session.Some? && old(left) >= 3
      ensures domainId == old(domainId) && address == old(address)
      ensures ok ==>
                && mailbox == Mailbox(Active, old(mailbox).accountId, a.session) && syncState == a.session
                && pendingUsers == if old(left) > 3 && address.claimedBy.Some?
                                   then old(pendingUsers) - {address.claimedBy.value} else old(pendingUsers)
      ensures ok ==> mappings.account == account && Maps(mappings.folders, a)
    {
      if a.discover.None? { return false; }
      var folders := a.discover.value;
      if "archive" !in folders {
        if a.createArchive.None? { return false; }
        folders := folders["archive" := a.createArchive.value];
      }
      var go := Reaches();
      if !go { return false; }
      Next(Db(), SaveMappings(Mappings(folders, account, a.discover.value)), StatePlan(a), old(left));
      mappings := Mappings(folders, account, a.discover.value);
      hide ApplyAll, Upto, StatePlan;
      assert Db() == Apply(old(Db()), SaveMappings(mappings));
      ok := SyncAndActivate(a);
    }

    /** The initial state; then checkpoint, status and sync row in one transaction; then the user. */
    method SyncAndActivate(a: Answers) returns (ok: bool)
      modifies this
      ensures Db() == ApplyAll(old(Db()), Upto(StatePlan(a), old(left)))
      ensures ok <==> a.session.Some? && old(left) >= 2
      ensures domainId == old(domainId) && address == old(address) && mappings == old(mappings)
      ensures ok ==>
                && mailbox == Mailbox(Active, old(mailbox).accountId, a.session) && syncState == a.session
                && pendingUsers == if old(left) > 2 && address.claimedBy.Some?
                                   then old(pendingUsers) - {address.claimedBy.value} else old(pendingUsers)
    {
      hide ApplyAll, Upto;
      ghost var start := Db();
      var go := Reaches();
      if !go {
        Stop(start, StatePlan(a), 0);
        return false;
      }
      mailbox := mailbox.(status := Syncing);
      ghost var syncing := Db();
      assert syncing == Apply(start, SetStatus(Syncing));
      Next(start, SetStatus(Syncing), StatePlan(a)[1..], old(left));
      assert StatePlan(a) == [SetStatus(Syncing)] + StatePlan(a)[1..];
      if a.session.None? {
        Stop(syncing, [], left);
        return false;
      }
      go := Reaches();
      if !go {
        Stop(syncing, StatePlan(a)[1..], 0);
        return false;
      }
      mailbox := mailbox.(status := Active, checkpoint := a.session);
      syncState := a.session;
      Next(syncing, Activate(a.session.value), [ActivateUser], old(left) - 1);
      assert StatePlan(a)[1..] == [Activate(a.session.value)] + [ActivateUser];
      assert Db() == Apply(syncing, Activate(a.session.value));
      go := Reaches();
      ghost var active := Db();
      if !go {
        Stop(active, [ActivateUser], 0);
        return true;
      }
      Next(active, ActivateUser, [], old(left) - 2);
      assert [ActivateUser] == [ActivateUser] + [];
      if address.claimedBy.Some? {
        pendingUsers := pendingUsers - {address.claimedBy.value};
      }
      assert Db() == Apply(active, ActivateUser);
      Stop(Db(), [], left);
      ok := true;
    }

    method ProcessAccountDisable(answered: bool) returns (ok: bool)
      modifies this
      ensures Db() == ApplyAll(old(Db()), Upto(StatusPlan(old(Db()), Disabled, answered), old(left)))
      ensures ok <==> old(mailbox).status.Disabled? || ((old(mailbox).accountId == "" || answered) && old(left) > 0)
      ensures Db() == old(Db()).(mailbox := old(mailbox).(status := if ok then Disabled else old(mailbox).status))
    {
      ok := SetMailboxStatus(Disabled, answered);
    }

    method ProcessAccountEnable(answered: bool) returns (ok: bool)
      modifies this
      ensures Db() == ApplyAll(old(Db()), Upto(StatusPlan(old(Db()), Active, answered), old(left)))
      ensures ok <==> old(mailbox).status.Active? || ((old(mailbox).accountId == "" || answered) && old(left) > 0)
      ensures Db() == old(Db()).(mailbox := old(mailbox).(status := if ok then Active else old(mailbox).status))
    {
      ok := SetMailboxStatus(Active, answered);
    }

    /** The shape both share: done already, the mail server first, then the row. */
    method SetMailboxStatus(status: Status, answered: bool) returns (ok: bool)
      modifies this
      ensures Db() == ApplyAll(old(Db()), Upto(StatusPlan(old(Db()), status, answered), old(left)))
      ensures ok <==> old(mailbox).status == status || ((old(mailbox).accountId == "" || answered) && old(left) > 0)
      ensures Db() == old(Db()).(mailbox := old(mailbox).(status := if ok then status else old(mailbox).status))
    {
      hide ApplyAll, Upto;
      ghost var start := Db();
      if mailbox.status == status {
        Stop(start, [], left);
        return true;
      }
      if mailbox.accountId != "" && !answered {
        Stop(start, [], left);
        return false;
      }
      var go := Reaches();
      if !go {
        Stop(start, StatusPlan(start, status, answered), 0);
        return false;
      }
      assert [SetStatus(status)] == [SetStatus(status)] + [];
      Next(start, SetStatus(status), [], old(left));
      mailbox := mailbox.(status := status);
      Stop(Db(), [], left);
      ok := true;
    }
  }

  /** A run that activates has done its work without the last update, of the user. */
  function Needed(r: Rows, a: Answers): int {
    if DomainId(r, a).Some? && Skips(r, a) then |Plan(r, a)| else |Plan(r, a)| - 1
  }

  predicate Answered(a: Answers) {
    AccountId(a).Some? && Folders(a).Some? && a.session.Some?
  }

  /** No answer of the mail server stands in the way. */
  predicate Completes(r: Rows, a: Answers) {
    DomainId(r, a).Some? && (Skips(r, a) || Answered(a))
  }

  // ---------------------------------------------------------------- jobs, stopped anywhere and run again

  /** A job's run, the mail server's answers to it, and how many of its transactions it gets to make. */
  datatype Job =
    | Create(answers: Answers, stop: nat)
    | Disable(answered: bool, stop: nat)
    | Enable(answered: bool, stop: nat)

  /** Disabling and enabling: done already, refused by the mail server, or one write of the status. */
  function StatusPlan(r: Rows, status: Status, answered: bool): seq<Write> {
    if r.mailbox.status == status || (r.mailbox.accountId != "" && !answered) then [] else [SetStatus(status)]
  }

  function PlanOf(r: Rows, j: Job): seq<Write> {
    match j
    case Create(a, _) => Plan(r, a)
    case Disable(answered, _) => StatusPlan(r, Disabled, answered)
    case Enable(answered, _) => StatusPlan(r, Active, answered)
  }

  function Ran(r: Rows, j: Job): Rows {
    ApplyAll(r, Upto(PlanOf(r, j), j.stop))
  }

  /** An enabling run that gets to its write. */
  predicate Enables(r: Rows, m: Move) {
    m.Run? && m.job.Enable? && m.job.stop > 0 && StatusPlan(r, Active, m.job.answered) != []
  }

  /** What no run breaks, from a mailbox just inserted on. */
  predicate Sane(r: Rows) {
    && (r.mailbox.accountId != "" ==> r.address.status.Claimed? && r.address.reservedBy.None?)
    && (r.mappings.account != "" ==> FullyMapped(r.mappings))
    && (r.mailbox.checkpoint.Some? ==> r.mailbox.accountId != "" && r.mappings.account != "" && r.syncState.Some?)
  }

  /** A mailbox as it is inserted, with its job. */
  predicate Fresh(r: Rows) {
    r.mailbox == Mailbox(Provisioning, "", None) && r.mappings == Mappings(map[], "", map[])
  }

  /** The run is over, or stopped, before it touches the mailbox. */
  predicate LeavesAccount(r: Rows, a: Answers, n: nat) {
    DomainId(r, a).None? || AccountPlan(r, a) == [] || n + |AccountPlan(r, a)| <= |Plan(r, a)|
  }

  /**
   However many of its transactions a create run makes, an active mailbox is ready; one that completes has mapped every
   folder discovered, and the archive.
   */
  lemma CreateKeeps(r: Rows, a: Answers, n: nat)
    requires Sane(r)
    ensures Sane(ApplyAll(r, Upto(Plan(r, a), n))) && (Safe(r) ==> Safe(ApplyAll(r, Upto(Plan(r, a), n))))
    ensures ApplyAll(r, Upto(Plan(r, a), n)).mailbox.status.Active?
            <==> (Completes(r, a) && n >= Needed(r, a)) || (r.mailbox.status.Active? && LeavesAccount(r, a, n))
    ensures Completes(r, a) && !Skips(r, a) && n >= Needed(r, a) ==>
              var folders := ApplyAll(r, Upto(Plan(r, a), n)).mappings.folders;
              && folders.Keys == a.discover.value.Keys + {"archive"}
              && (forall role <- a.discover.value :: folders[role] == a.discover.value[role])
              && ("archive" !in a.discover.value ==> a.createArchive == Some(folders["archive"]))
  {
    assert Answered(a) && !Skips(r, a) ==> |AccountPlan(r, a)| == 5;
    hide ApplyAll, Upto, StatePlan;
    if n == 0 || DomainId(r, a).None? {
      Stop(r, Plan(r, a), n);
    } else if r.domainId == "" {
      var w := SetDomain(DomainId(r, a).value);
      Next(r, w, AccountPlan(r, a), n);
      AccountKeeps(Apply(r, w), a, n - 1);
    } else {
      assert Plan(r, a) == AccountPlan(r, a);
      AccountKeeps(r, a, n);
    }
  }

  lemma AccountKeeps(r: Rows, a: Answers, n: nat)
    requires Sane(r)
    ensures Sane(ApplyAll(r, Upto(AccountPlan(r, a), n))) && (Safe(r) ==> Safe(ApplyAll(r, Upto(AccountPlan(r, a), n))))
    ensures n > 0 && AccountPlan(r, a) != [] ==>
              (ApplyAll(r, Upto(AccountPlan(r, a), n)).mailbox.status.Active? <==> Answered(a) && n >= 4)
    ensures n >= 2 && AccountPlan(r, a) != [] && Folders(a).Some? ==>
              ApplyAll(r, Upto(AccountPlan(r, a), n)).mappings
              == Mappings(Folders(a).value, AccountId(a).value, a.discover.value)
  {
    hide ApplyAll, Upto, StatePlan;
    if n == 0 || AccountPlan(r, a) == [] {
      Stop(r, AccountPlan(r, a), n);
    } else {
      var account := AccountId(a).value;
      var r1 := Apply(r, Provision(account));
      Next(r, Provision(account), FolderPlan(account, a), n);
      if n == 1 || FolderPlan(account, a) == [] {
        Stop(r1, FolderPlan(account, a), n - 1);
      } else {
        var save := SaveMappings(Mappings(Folders(a).value, account, a.discover.value));
        Next(r1, save, StatePlan(a), n - 1);
        StateKeeps(Apply(r1, save), a, n - 2);
      }
    }
  }

  lemma StateKeeps(r: Rows, a: Answers, n: nat)
    requires Sane(r) && r.mailbox.accountId != "" && r.mappings.account == r.mailbox.accountId
    ensures Sane(ApplyAll(r, Upto(StatePlan(a), n))) && (Safe(r) ==> Safe(ApplyAll(r, Upto(StatePlan(a), n))))
    ensures ApplyAll(r, Upto(StatePlan(a), n)).mappings == r.mappings
    ensures n >= 2 && a.session.Some? ==> ApplyAll(r, Upto(StatePlan(a), n)).mailbox.status.Active?
    ensures !(n >= 2 && a.session.Some?) && !r.mailbox.status.Active? ==>
              !ApplyAll(r, Upto(StatePlan(a), n)).mailbox.status.Active?
  {
    hide ApplyAll, Upto;
    if n == 0 {
      Stop(r, StatePlan(a), 0);
    } else {
      var rest := StatePlan(a)[1..];
      var r1 := Apply(r, SetStatus(Syncing));
      assert StatePlan(a) == [SetStatus(Syncing)] + rest;
      Next(r, SetStatus(Syncing), rest, n);
      if n == 1 || a.session.None? {
        Stop(r1, rest, n - 1);
      } else {
        var activate := Activate(a.session.value);
        var r2 := Apply(r1, activate);
        assert rest == [activate] + [ActivateUser];
        Next(r1, activate, [ActivateUser], n - 1);
        if n == 2 {
          Stop(r2, [ActivateUser], 0);
        } else {
          assert [ActivateUser] == [ActivateUser] + [];
          Next(r2, ActivateUser, [], n - 2);
          Stop(Apply(r2, ActivateUser), [], n - 3);
        }
      }
    }
  }

  // ---------------------------------------------------------------- whole histories

  /**
   What happens to the rows: a job's run, or one of the address functions, which any user or worker may call at any
   moment. A reservation lapses with time; expired tells whether it has. No transaction of a run before the one that
   claims the address looks at it, so a lapse in mid-run is one before the run.
   */
  datatype Move =
    | Run(job: Job)
    | Clean(expired: bool)
    | Reserve(user: string, expired: bool)
    | Claim(user: string, expired: bool)

  function Readdressed(a: Address, m: Move): Address {
    match m
    case Run(_) => a
    case Clean(expired) => if a.status.Reserved? && expired then a.(status := Available, reservedBy := None) else a
    case Reserve(user, expired) =>
      if a.status.Available? || (a.status.Reserved? && expired) then a.(status := Reserved, reservedBy := Some(user))
      else a
    case Claim(user, expired) =>
      if a.status.Claimed? || a.status.Blocked? then a
      else if a.status.Reserved? && a.reservedBy.Some? && a.reservedBy.value != user && !expired then a
      else Address(Claimed, Some(user), None)
  }

  function Moved(r: Rows, m: Move): Rows {
    if m.Run? then Ran(r, m.job) else r.(address := Readdressed(r.address, m))
  }

  function After(r: Rows, moves: seq<Move>): Rows {
    if moves == [] then r else Moved(After(r, moves[..|moves| - 1]), moves[|moves| - 1])
  }

  lemma AfterOneMore(r: Rows, moves: seq<Move>, n: nat)
    requires n < |moves|
    ensures After(r, moves[..n + 1]) == Moved(After(r, moves[..n]), moves[n])
  {
    assert moves[..n + 1][..n] == moves[..n];
  }

  /** The mailbox was once activated, and its folders are those of the account it now has. */
  predicate Initialised(r: Rows) {
    r.mailbox.checkpoint.Some? && r.mappings.account == r.mailbox.accountId
  }

  lemma RunKeeps(r: Rows, j: Job)
    requires Sane(r)
    ensures Sane(Ran(r, j))
    ensures Safe(r) ==> (Safe(Ran(r, j)) <==> !Enables(r, Run(j)) || Initialised(r))
  {
    hide ApplyAll, Upto;
    if j.Create? {
      CreateKeeps(r, j.answers, j.stop);
    } else {
      var plan := PlanOf(r, j);
      if j.stop == 0 || plan == [] {
        Stop(r, plan, j.stop);
      } else {
        assert plan == [plan[0]] + [];
        Next(r, plan[0], [], j.stop);
        Stop(Apply(r, plan[0]), [], j.stop - 1);
      }
    }
  }

  lemma MoveKeeps(r: Rows, m: Move)
    requires Sane(r)
    ensures Sane(Moved(r, m))
    ensures Safe(r) ==> (Safe(Moved(r, m)) <==> !Enables(r, m) || Initialised(r))
  {
    hide ApplyAll, Upto, PlanOf;
    if m.Run? {
      RunKeeps(r, m.job);
    }
  }

  lemma {:induction false} MovesKeepSane(r: Rows, moves: seq<Move>)
    requires Sane(r)
    ensures Sane(After(r, moves))
  {
    if moves != [] {
      MovesKeepSane(r, moves[..|moves| - 1]);
      MoveKeeps(After(r, moves[..|moves| - 1]), moves[|moves| - 1]);
    }
  }

  /** The n-th move enables a mailbox that is not initialised. */
  predicate EnablesEarly(r: Rows, moves: seq<Move>, n: nat)
    requires n < |moves|
  {
    Enables(After(r, moves[..n]), moves[n]) && !Initialised(After(r, moves[..n]))
  }

  /**
   From a mailbox just inserted, or any that runs can leave, through any jobs each stopped anywhere: every active
   mailbox on the way was ready, exactly when no job enabled one that was not initialised.
   */
  lemma AlwaysReadyIff(r: Rows, moves: seq<Move>)
    requires Sane(r) && Safe(r)
    ensures (forall n: nat :: n <= |moves| ==> Safe(After(r, moves[..n])))
            <==> (forall n: nat :: n < |moves| ==> !EnablesEarly(r, moves, n))
  {
    hide Safe, Sane, Initialised, Enables, Moved;
    if forall n: nat :: n <= |moves| ==> Safe(After(r, moves[..n])) {
      forall n: nat | n < |moves| ensures !EnablesEarly(r, moves, n) {
        OneMove(r, moves, n);
      }
    }
    if forall n: nat :: n < |moves| ==> !EnablesEarly(r, moves, n) {
      forall n: nat | n <= |moves| ensures Safe(After(r, moves[..n])) {
        SafeSoFar(r, moves, n);
      }
    }
  }

  lemma OneMove(r: Rows, moves: seq<Move>, n: nat)
    requires Sane(r) && n < |moves|
    ensures Safe(After(r, moves[..n])) ==> (Safe(After(r, moves[..n + 1])) <==> !EnablesEarly(r, moves, n))
  {
    hide Safe, Sane, Initialised, Enables, Moved;
    AfterOneMore(r, moves, n);
    MovesKeepSane(r, moves[..n]);
    MoveKeeps(After(r, moves[..n]), moves[n]);
  }

  lemma {:induction false} SafeSoFar(r: Rows, moves: seq<Move>, n: nat)
    requires Sane(r) && Safe(r) && n <= |moves|
    requires forall m: nat :: m < |moves| ==> !EnablesEarly(r, moves, m)
    ensures Safe(After(r, moves[..n]))
  {
    hide Safe, Sane, EnablesEarly, Moved;
    if n == 0 {
      assert moves[..0] == [];
    } else {
      SafeSoFar(r, moves, n - 1);
      OneMove(r, moves, n - 1);
    }
  }

  /** Enabling a mailbox just inserted makes it active, without an account. */
  lemma EnabledTooEarly(r: Rows)
    requires Fresh(r)
    ensures Sane(r) && Safe(r)
    ensures var after := Moved(r, Run(Enable(true, 1)));
            after.mailbox.status.Active? && after.mailbox.accountId == "" && !Safe(after)
  {
    var w := SetStatus(Active);
    assert PlanOf(r, Enable(true, 1)) == [w] + [];
    Next(r, w, [], 1);
    Stop(Apply(r, w), [], 0);
  }

  // ---------------------------------------------------------------- who owns the address

  /** The user's reservation stands, or has become the user's claim. */
  predicate Owns(u: string, a: Address) {
    || a == Address(Reserved, None, Some(u))
    || (a.status.Claimed? && a.claimedBy == Some(u))
  }

  /** The user's reservation has expired, and is cleaned up or passes to somebody else. */
  predicate LosesAddress(u: string, a: Address, m: Move) {
    a.status.Reserved? && match m
                          case Run(_) => false
                          case Clean(expired) => expired
                          case Reserve(user, expired) => expired && user != u
                          case Claim(user, expired) => expired && user != u
  }

  lemma MoveKeepsOwnerIff(r: Rows, m: Move, u: string)
    requires Owns(u, r.address)
    ensures Owns(u, Moved(r, m).address) <==> !LosesAddress(u, r.address, m)
    ensures LosesAddress(u, r.address, m) ==> Claimant(Moved(r, m).address) != Some(u)
  {
    if m.Run? {
      WritesKeepOwner(r, Upto(PlanOf(r, m.job), m.job.stop), u);
    }
  }

  /** A user's address stays the user's, whatever runs and stops, exactly when it never lapses before a claim. */
  lemma OwnerKeptIff(r: Rows, moves: seq<Move>, u: string)
    requires Owns(u, r.address)
    ensures (forall n: nat :: n <= |moves| ==> Claimant(After(r, moves[..n]).address) == Some(u))
            <==> (forall n: nat :: n < |moves| ==> !LosesAddress(u, After(r, moves[..n]).address, moves[n]))
  {
    hide Moved, LosesAddress;
    if forall n: nat :: n <= |moves| ==> Claimant(After(r, moves[..n]).address) == Some(u) {
      OwnsUpTo(r, moves, u, |moves|);
      forall n: nat | n < |moves| ensures !LosesAddress(u, After(r, moves[..n]).address, moves[n]) {
        AfterOneMore(r, moves, n);
        OwnsUpTo(r, moves, u, n);
        MoveKeepsOwnerIff(After(r, moves[..n]), moves[n], u);
        assert Claimant(After(r, moves[..n + 1]).address) == Some(u);
      }
    }
    if forall n: nat :: n < |moves| ==> !LosesAddress(u, After(r, moves[..n]).address, moves[n]) {
      forall n: nat | n <= |moves| ensures Claimant(After(r, moves[..n]).address) == Some(u) {
        OwnsSoFar(r, moves, u, n);
      }
    }
  }

  /** So an address reserved for a user is nobody else's as long as no reservation is found expired. */
  lemma {:induction false} KeptWhileNothingExpires(r: Rows, moves: seq<Move>, u: string, n: nat)
    requires r.address == Address(Reserved, None, Some(u)) && n <= |moves|
    requires forall m <- moves :: !m.Run? ==> !m.expired
    ensures var a := After(r, moves[..n]).address;
            a == Address(Reserved, None, Some(u)) || a == Address(Claimed, Some(u), None)
  {
    hide ApplyAll, Upto, PlanOf;
    if n == 0 {
      assert moves[..0] == [];
    } else {
      KeptWhileNothingExpires(r, moves, u, n - 1);
      AfterOneMore(r, moves, n - 1);
      var before, m := After(r, moves[..n - 1]), moves[n - 1];
      assert m in moves;
      if m.Run? {
        WritesKeepExactly(before, Upto(PlanOf(before, m.job), m.job.stop), u);
      }
    }
  }

  lemma {:induction false} WritesKeepExactly(r: Rows, ws: seq<Write>, u: string)
    requires r.address == Address(Reserved, None, Some(u)) || r.address == Address(Claimed, Some(u), None)
    ensures var a := ApplyAll(r, ws).address;
            a == Address(Reserved, None, Some(u)) || a == Address(Claimed, Some(u), None)
    decreases |ws|
  {
    if ws != [] {
      WritesKeepExactly(Apply(r, ws[0]), ws[1..], u);
    }
  }

  lemma {:induction false} OwnsSoFar(r: Rows, moves: seq<Move>, u: string, n: nat)
    requires Owns(u, r.address) && n <= |moves|
    requires forall m: nat :: m < n ==> !LosesAddress(u, After(r, moves[..m]).address, moves[m])
    ensures Owns(u, After(r, moves[..n]).address)
  {
    hide Moved, LosesAddress, Owns;
    if n == 0 {
      assert moves[..0] == [];
    } else {
      OwnsSoFar(r, moves, u, n - 1);
      AfterOneMore(r, moves, n - 1);
      MoveKeepsOwnerIff(After(r, moves[..n - 1]), moves[n - 1], u);
    }
  }

  lemma {:induction false} OwnsUpTo(r: Rows, moves: seq<Move>, u: string, n: nat)
    requires Owns(u, r.address) && n <= |moves|
    requires forall m: nat :: m <= |moves| ==> Claimant(After(r, moves[..m]).address) == Some(u)
    ensures Owns(u, After(r, moves[..n]).address)
  {
    hide Moved, LosesAddress, Owns, Claimant;
    if n == 0 {
      assert moves[..0] == [];
    } else {
      OwnsUpTo(r, moves, u, n - 1);
      AfterOneMore(r, moves, n - 1);
      MoveKeepsOwnerIff(After(r, moves[..n - 1]), moves[n - 1], u);
      assert Claimant(After(r, moves[..n]).address) == Some(u);
    }
  }

  /** A lapsed address that somebody else reserves becomes theirs, by the run meant to claim it for the first user. */
  lemma LapsedAddressPasses(r: Rows, u: string, v: string, j: Job)
    requires r.address == Address(Reserved, None, Some(u))
    ensures Claimant(After(r, [Clean(true), Reserve(v, false), Run(j)]).address) == Some(v)
  {
    var moves := [Clean(true), Reserve(v, false), Run(j)];
    AfterOneMore(r, moves, 0);
    AfterOneMore(r, moves, 1);
    AfterOneMore(r, moves, 2);
    assert moves[..0] == [] && moves[..3] == moves;
    var before := After(r, moves[..2]);
    WritesKeepOwner(before, Upto(PlanOf(before, j), j.stop), v);
  }

  /** A run never changes whose the address is, and activates no other user. */
  lemma {:induction false} WritesKeepOwner(r: Rows, ws: seq<Write>, u: string)
    ensures var after := ApplyAll(r, ws);
            && Claimant(after.address) == Claimant(r.address) && (Owns(u, r.address) ==> Owns(u, after.address))
            && after.pendingUsers <= r.pendingUsers
            && forall v <- r.pendingUsers - after.pendingUsers :: Claimant(r.address) == Some(v)
    decreases |ws|
  {
    if ws != [] {
      WritesKeepOwner(Apply(r, ws[0]), ws[1..], u);
    }
  }
}
