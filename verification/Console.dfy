/**
 The shared state of webconsole/console.js and the code that updates it, one method per stretch that
 runs without interruption, proved against the steps of module ConsoleProtocol. A valid console is on a page that
 some run of that protocol reaches, and every stretch keeps it so: what the protocol promises of every reachable
 page, the console keeps.
 */
module Console {
  import opened Text
  import opened ConsoleProtocol

  class Console {
    // the `state` record
    var state: View
    // `syncVersion`, `pendingRequests` and the abort signals
    var syncVersion: nat
    var pending: set<Request>
    var aborted: set<Request>
    // the activations of `loadLive` and of the first connect that have not returned
    var calls: map<nat, Call>
    var bootWaiting: bool
    // history
    ghost var applied: seq<Applied>
    ghost var cleared: bool

    ghost function Now(): Page
      reads this
    {
      Page(state, syncVersion, pending, aborted, calls, bootWaiting, applied, cleared)
    }

    ghost predicate Valid()
      reads this
    {
      Reachable(Now())
    }

    /** Payloads were applied in the order of their loads, the newest of them is shown unless the inventory was
        emptied since, and the spinner turns exactly while the newest load is in flight. */
    ghost predicate Truthful()
      reads this
    {
      Increasing(applied) && ShowsNewest(Now()) && (state.syncing <==> syncVersion in calls)
    }

    lemma ValidIsTruthful()
      requires Valid()
      ensures Truthful()
    {
      ReachableInv(Now());
    }

    /** A step of the protocol from a page that was reachable. */
    lemma Stepped(p: Page, a: Action)
      requires Reachable(p) && Enabled(p, a) && Now() == Step(p, a)
      ensures Valid() && Truthful()
    {
      ReachableStep(p, a);
      ValidIsTruthful();
    }

    /** The page as its first connect asks for the session. */
    constructor (origin: string)
      ensures Valid() && Now() == InitialPage(origin)
    {
      state := View(origin, false, false, false, false, "", None, None, "", [], [], false);
      syncVersion, pending, aborted, calls, bootWaiting := 0, {}, {}, map[], true;
      applied, cleared := [], true;
      new;
      ReachableStart(origin);
    }

    // ---------- the pieces ----------

    method SetSession(read: bool, admin: bool)
      modifies `state
      ensures Now() == ConsoleProtocol.SetSession(old(Now()), read, admin)
    {
      state := state.(canRead := read);
      state := state.(canAdmin := admin);
      state := state.(sessionOK := state.canRead || state.canAdmin);
    }

    method SetInventory(certificates: seq<string>, accounts: seq<string>, live: bool)
      modifies `state
      ensures state == old(state).(certificates := certificates, accounts := accounts, live := live)
    {
      state := state.(certificates := certificates);
      state := state.(accounts := accounts);
      state := state.(live := live);
    }

    method EmptyInventory()
      modifies `state, `cleared
      ensures Now() == ClearInventory(old(Now()))
    {
      SetInventory([], [], false);
      cleared := true;
    }

    /** `loadLive` up to its `await`; the first connect makes its one load when its session has been answered. */
    method LoadLive(boot: bool)
      requires boot ==> !bootWaiting && forall v <- calls :: !calls[v].boot
      modifies this
      ensures Now() == Begin(old(Now()), boot)
    {
      var sent := state.base != "" && state.sessionOK && state.canRead;
      syncVersion := syncVersion + 1;
      var version := syncVersion;
      state := state.(syncing := true);
      if sent {
        pending := pending + (set s | s in SLOTS :: Load(version, s));
      }
      calls := calls[version := Call(boot, sent, map[])];
    }

    /** `loadLive` from its `await` on, with all its answers. */
    method Loaded(version: nat, c: Call, at: nat)
      requires version in calls && calls[version].sent && Complete(c)
      requires forall slot :: Load(version, slot) !in pending
      modifies this
      ensures Now() == Succeed(old(Now()), version, c, at)
    {
      calls := calls - {version};
      if version != syncVersion {
        return;
      }
      Show(c, at);
      applied, cleared := applied + [Applied(version, state.certificates, state.accounts)], false;
      state := state.(syncing := false);
    }

    method Show(c: Call, at: nat)
      requires Complete(c)
      modifies `state
      ensures state == Shown(old(state), c, at)
    {
      ShowDeployment(c.replies[Deployment]);
      ShowSync(c.replies[Bindings], at);
      SetInventory(c.replies[Inventory].items, c.replies[Accounts].items, true);
    }

    method ShowDeployment(answer: Answer)
      modifies `state
      ensures state == DeploymentShown(old(state), answer)
    {
      match answer {
        case Got(_, info) => state := state.(deployment := Some(info), deploymentError := "");
        case Refused(message) => state := state.(deployment := None, deploymentError := message);
      }
    }

    method ShowSync(bindings: Answer, at: nat)
      modifies `state
      ensures state == SyncShown(old(state), bindings, at)
    {
      state := state.(lastSynced := Some(at));
      match bindings {
        case Got(_, _) => state := state.(syncError := "");
        case Refused(message) => state := state.(syncError := "Binding lookup failed: " + message);
      }
    }

    /** `loadLive` from its `await` on, when one of its requests failed; the first connect catches the error
        and empties the inventory. */
    method LoadFailed(version: nat, message: Message)
      requires version in calls
      requires calls[version].sent ==>
        || (Inventory !in calls[version].replies && Load(version, Inventory) !in pending)
        || (Accounts !in calls[version].replies && Load(version, Accounts) !in pending)
      modifies this
      ensures Now() == Fail(old(Now()), version, old(calls[version].boot), message)
    {
      var boot := calls[version].boot;
      calls := calls - {version};
      if version != syncVersion {
        return;
      }
      state := state.(syncError := message);
      state := state.(syncing := false);
      if boot {
        EmptyInventory();
      }
    }

    // ---------- the stretches ----------

    /** A refresh: the button, a timer, or the end of an edit. */
    method Refresh()
      requires Valid()
      modifies this
      ensures Valid() && Truthful() && Now() == Step(old(Now()), StartLoad)
      ensures state.syncing && syncVersion == old(syncVersion) + 1
    {
      ghost var was := Now();
      LoadLive(false);
      Stepped(was, StartLoad);
    }

    /** A request of a load settles, and with it perhaps the load. */
    method Answered(version: nat, slot: Slot, answer: Answer, at: nat)
      requires Valid() && Load(version, slot) in pending
      modifies this
      ensures Valid() && Truthful() && Now() == Step(old(Now()), Settle(version, slot, answer, at))
    {
      ghost var was := Now();
      Arrived(version, slot, answer, at);
      Stepped(was, Settle(version, slot, answer, at));
    }

    method Arrived(version: nat, slot: Slot, answer: Answer, at: nat)
      requires Valid() && Load(version, slot) in pending
      modifies this
      ensures Now() == SettleStep(old(Now()), version, slot, answer, at)
    {
      if version in calls { StillAwaited(Now(), version, slot); }
      pending := pending - {Load(version, slot)};
      if version !in calls {
        return;
      }
      if (slot == Inventory || slot == Accounts) && answer.Refused? {
        LoadFailed(version, answer.message);
        return;
      }
      var c := calls[version].(replies := calls[version].replies[slot := answer]);
      if c.replies.Keys == SLOTS && c.replies[Inventory].Got? && c.replies[Accounts].Got? {
        assert c.replies.Keys == calls[version].replies.Keys + {slot};
        Loaded(version, c, at);
      } else {
        calls := calls[version := c];
      }
    }

    /** A load whose requests the session does not allow fails. */
    method Refused(version: nat, message: Message)
      requires Valid() && version in calls && !calls[version].sent
      modifies this
      ensures Valid() && Truthful() && Now() == Step(old(Now()), RefuseUnsent(version, message))
    {
      ghost var was := Now();
      LoadFailed(version, message);
      Stepped(was, RefuseUnsent(version, message));
    }

    /** Any other request of the page, from `fetchJSON` on until it settles. */
    method OtherSent(id: nat)
      requires Valid() && Other(id) !in pending
      modifies this
      ensures Valid() && Truthful() && Now() == Step(old(Now()), OtherStart(id))
    {
      ghost var was := Now();
      pending := pending + {Other(id)};
      Stepped(was, OtherStart(id));
    }

    method OtherSettled(id: nat)
      requires Valid() && Other(id) in pending
      modifies this
      ensures Valid() && Truthful() && Now() == Step(old(Now()), OtherSettle(id))
    {
      ghost var was := Now();
      pending := pending - {Other(id)};
      Stepped(was, OtherSettle(id));
    }

    /** The connect form, once the daemon accepted the tokens. */
    method SignIn(base: string, read: bool, admin: bool)
      requires Valid() && base != ""
      modifies this
      ensures Valid() && Truthful() && Now() == Step(old(Now()), ConsoleProtocol.SignIn(base, read, admin))
    {
      ghost var was := Now();
      state := state.(base := base);
      SetSession(read, admin);
      if state.canRead {
        LoadLive(false);
      }
      Stepped(was, ConsoleProtocol.SignIn(base, read, admin));
    }

    /** The sign-out button, once the daemon has ended the session. */
    method SignOut()
      requires Valid()
      modifies this
      ensures Valid() && Truthful() && Now() == Step(old(Now()), ConsoleProtocol.SignOut)
      ensures pending == old(pending) && pending <= aborted
      ensures !MayRead(state) && state.certificates == [] && state.accounts == [] && !state.live
    {
      ghost var was := Now();
      syncVersion := syncVersion + 1;
      aborted := aborted + pending;
      state := state.(deployment := None, deploymentError := "");
      state := state.(base := "", lastSynced := None, syncError := "", syncing := false);
      SetSession(false, false);
      EmptyInventory();
      Stepped(was, ConsoleProtocol.SignOut);
    }

    /** The first connect, when its session request is answered. */
    method BootSession(read: bool, admin: bool)
      requires Valid() && bootWaiting
      modifies this
      ensures Valid() && Truthful() && Now() == Step(old(Now()), ConsoleProtocol.BootSession(read, admin))
    {
      ghost var was := Now();
      ReachableInv(was);
      bootWaiting := false;
      SetSession(read, admin);
      if state.canRead {
        LoadLive(true);
      } else {
        EmptyInventory();
      }
      Stepped(was, ConsoleProtocol.BootSession(read, admin));
    }

    /** The first connect, when its session request fails. */
    method BootFail()
      requires Valid() && bootWaiting
      modifies this
      ensures Valid() && Truthful() && Now() == Step(old(Now()), ConsoleProtocol.BootFail)
    {
      ghost var was := Now();
      bootWaiting := false;
      EmptyInventory();
      Stepped(was, ConsoleProtocol.BootFail);
    }
  }
}
