/**
 The refresh and session protocol of webconsole/console.js as a step system: overlapping loads, each of
 four requests that settle in any order, race with sign-in, sign-out and the page's own first connect.
 */
module ConsoleProtocol {
  import opened Text

  type Message = s: string | s != "" witness "error"

  datatype Slot = Inventory | Accounts | Bindings | Deployment

  const SLOTS: set<Slot> := {Inventory, Accounts, Bindings, Deployment}

  /** How one request settles. */
  datatype Answer = Got(items: seq<string>, info: string) | Refused(message: Message)

  datatype Request = Load(version: nat, slot: Slot) | Other(id: nat)

  /** A `loadLive` call in flight: whether the page's first connect made it, whether its requests were
      sent (the session allowed them), and the answers so far. */
  datatype Call = Call(boot: bool, sent: bool, replies: map<Slot, Answer>)

  /** What the operator sees. */
  datatype View = View(
    base: string, sessionOK: bool, canRead: bool, canAdmin: bool,
    syncing: bool, syncError: string, lastSynced: Option<nat>,
    deployment: Option<string>, deploymentError: string,
    certificates: seq<string>, accounts: seq<string>, live: bool)

  /** One payload that was put on the page. */
  datatype Applied = Applied(version: nat, certificates: seq<string>, accounts: seq<string>)

  datatype Page = Page(
    view: View,
    syncVersion: nat,
    pending: set<Request>,
    aborted: set<Request>,
    calls: map<nat, Call>,
    bootWaiting: bool,
    applied: seq<Applied>,
    cleared: bool)

  datatype Action =
    | StartLoad
    | Settle(version: nat, slot: Slot, answer: Answer, at: nat)
    | RefuseUnsent(version: nat, message: Message)
    | SignIn(base: string, read: bool, admin: bool)
    | SignOut
    | BootSession(read: bool, admin: bool)
    | BootFail
    | OtherStart(id: nat)
    | OtherSettle(id: nat)

  /** The page as its first connect has just asked for the session. */
  function InitialPage(origin: string): Page {
    Page(View(origin, false, false, false, false, "", None, None, "", [], [], false),
         0, {}, {}, map[], true, [], true)
  }

  // ---------- the pieces of the script ----------

  function SetSession(p: Page, read: bool, admin: bool): Page {
    p.(view := p.view.(canRead := read, canAdmin := admin, sessionOK := read || admin))
  }

  function ClearInventory(p: Page): Page {
    p.(view := p.view.(certificates := [], accounts := [], live := false), cleared := true)
  }

  /** Whether `request` lets a read through. */
  predicate MayRead(v: View) { v.base != "" && v.sessionOK && v.canRead }

  /** The synchronous part of `loadLive`. */
  function Begin(p: Page, boot: bool): Page {
    var v := p.syncVersion + 1;
    var sent := MayRead(p.view);
    p.(syncVersion := v,
       view := p.view.(syncing := true),
       calls := p.calls[v := Call(boot, sent, map[])],
       pending := if sent then p.pending + (set s | s in SLOTS :: Load(v, s)) else p.pending)
  }

  function DeploymentShown(v: View, answer: Answer): View {
    match answer
    case Got(_, info) => v.(deployment := Some(info), deploymentError := "")
    case Refused(message) => v.(deployment := None, deploymentError := message)
  }

  function SyncShown(v: View, bindings: Answer, at: nat): View {
    v.(lastSynced := Some(at),
       syncError := if bindings.Got? then "" else "Binding lookup failed: " + bindings.message)
  }

  /** The view with the payload of a complete load. */
  function Shown(v: View, c: Call, at: nat): View
    requires Complete(c)
  {
    SyncShown(DeploymentShown(v, c.replies[Deployment]), c.replies[Bindings], at)
      .(certificates := c.replies[Inventory].items, accounts := c.replies[Accounts].items, live := true)
  }

  /** The continuation of `loadLive` after its requests succeeded. */
  function Succeed(p: Page, v: nat, c: Call, at: nat): Page
    requires v in p.calls && Complete(c)
  {
    var q := p.(calls := p.calls - {v});
    if v != p.syncVersion then q
    else
      q.(view := Shown(p.view, c, at).(syncing := false),
         applied := p.applied + [Applied(v, c.replies[Inventory].items, c.replies[Accounts].items)],
         cleared := false)
  }

  /** The continuation of `loadLive` after a request it needs failed; the page's first connect then
      empties the inventory. */
  function Fail(p: Page, v: nat, boot: bool, message: Message): Page
    requires v in p.calls
  {
    var q := p.(calls := p.calls - {v});
    if v != p.syncVersion then q
    else
      var failed := q.(view := p.view.(syncError := message, syncing := false));
      if boot then ClearInventory(failed) else failed
  }

  /** The inventory and the accounts are needed; the other two answers may be failures. */
  predicate Needed(slot: Slot) { slot == Inventory || slot == Accounts }

  predicate Complete(c: Call) {
    c.replies.Keys == SLOTS && c.replies[Inventory].Got? && c.replies[Accounts].Got?
  }

  /** One request of a load settles. The load fails with the first needed answer that fails, and
      succeeds with the last of its four answers. */
  function SettleStep(p: Page, v: nat, slot: Slot, answer: Answer, at: nat): Page {
    var q := p.(pending := p.pending - {Load(v, slot)});
    if v !in p.calls then q
    else if Needed(slot) && answer.Refused? then Fail(q, v, p.calls[v].boot, answer.message)
    else
      var c := p.calls[v].(replies := p.calls[v].replies[slot := answer]);
      if Complete(c) then Succeed(q, v, c, at) else q.(calls := p.calls[v := c])
  }

  function SignOutStep(p: Page): Page {
    var out := p.(syncVersion := p.syncVersion + 1,
                  aborted := p.aborted + p.pending,
                  view := p.view.(deployment := None, deploymentError := "", base := "",
                                  lastSynced := None, syncError := "", syncing := false));
    ClearInventory(SetSession(out, false, false))
  }

  predicate Enabled(p: Page, a: Action) {
    match a
    case Settle(v, slot, _, _) => Load(v, slot) in p.pending
    case RefuseUnsent(v, _) => v in p.calls && !p.calls[v].sent
    case SignIn(base, _, _) => base != ""
    case BootSession(_, _) => p.bootWaiting
    case BootFail => p.bootWaiting
    case OtherStart(id) => Other(id) !in p.pending
    case OtherSettle(id) => Other(id) in p.pending
    case _ => true
  }

  function Step(p: Page, a: Action): Page
    requires Enabled(p, a)
  {
    match a
    case StartLoad => Begin(p, false)
    case Settle(v, slot, answer, at) => SettleStep(p, v, slot, answer, at)
    case RefuseUnsent(v, message) => Fail(p, v, p.calls[v].boot, message)
    case SignIn(base, read, admin) =>
      var q := SetSession(p.(view := p.view.(base := base)), read, admin);
      if read then Begin(q, false) else q
    case SignOut => SignOutStep(p)
    case BootSession(read, admin) =>
      var q := SetSession(p, read, admin).(bootWaiting := false);
      if read then Begin(q, true) else ClearInventory(q)
    case BootFail => ClearInventory(p.(bootWaiting := false))
    case OtherStart(id) => p.(pending := p.pending + {Other(id)})
    case OtherSettle(id) => p.(pending := p.pending - {Other(id)})
  }

  // ---------- runs ----------

  ghost predicate IsRun(p: Page, actions: seq<Action>)
    decreases actions
  {
    actions != [] ==> Enabled(p, actions[0]) && IsRun(Step(p, actions[0]), actions[1..])
  }

  function Run(p: Page, actions: seq<Action>): Page
    requires IsRun(p, actions)
    decreases actions
  {
    if actions == [] then p else Run(Step(p, actions[0]), actions[1..])
  }

  // ---------- the invariant ----------

  ghost predicate Increasing(applied: seq<Applied>) {
    forall i, j :: 0 <= i < j < |applied| ==> applied[i].version < applied[j].version
  }

  /** The inventory on the page is the newest payload applied, or was emptied since. */
  predicate ShowsNewest(p: Page) {
    var n := |p.applied|;
    if p.cleared then p.view.certificates == [] && p.view.accounts == [] && !p.view.live
    else n > 0 && p.view.live
         && p.view.certificates == p.applied[n - 1].certificates
         && p.view.accounts == p.applied[n - 1].accounts
  }

  ghost predicate Waits(p: Page, v: nat)
    requires v in p.calls
  {
    var c := p.calls[v];
    && (c.sent ==> forall s :: Load(v, s) in p.pending <==> s !in c.replies)
    && (!c.sent ==> c.replies == map[] && forall s :: Load(v, s) !in p.pending)
    && (forall s <- c.replies :: Needed(s) ==> c.replies[s].Got?)
    && !Complete(c)
  }

  ghost predicate Core(p: Page) {
    && (forall v <- p.calls :: 1 <= v <= p.syncVersion)
    && (forall r <- p.pending :: r.Load? ==> 1 <= r.version <= p.syncVersion)
    // The spinner turns exactly while the newest load is in flight.
    && (p.view.syncing <==> p.syncVersion in p.calls)
    // Payloads are applied in the order their loads were started, each once.
    && Increasing(p.applied)
    && (forall a <- p.applied :: a.version <= p.syncVersion && a.version !in p.calls)
    && ShowsNewest(p)
    && (p.bootWaiting ==> forall v <- p.calls :: !p.calls[v].boot)
  }

  ghost predicate Inv(p: Page) {
    Core(p) && forall v <- p.calls :: Waits(p, v)
  }

  lemma InitialInv(origin: string)
    ensures Inv(InitialPage(origin))
  {}

  lemma AllSlots(s: Slot)
    ensures s in SLOTS
  {
    match s { case Inventory => case Accounts => case Bindings => case Deployment => }
  }

  lemma BeginInv(p: Page, boot: bool)
    requires Inv(p) && (boot ==> !p.bootWaiting)
    ensures Inv(Begin(p, boot))
  {
    var q := Begin(p, boot);
    forall s ensures s in SLOTS { AllSlots(s); }
    forall u | u in q.calls ensures Waits(q, u) {
      if u in p.calls { assert Waits(p, u); }
    }
  }

  /** A call that ends leaves the others as they were. */
  lemma OthersWait(p: Page, q: Page, v: nat)
    requires q.calls == p.calls - {v} && q.pending == p.pending
    requires forall u <- p.calls :: u != v ==> Waits(p, u)
    ensures forall u <- q.calls :: Waits(q, u)
  {
    forall u | u in q.calls ensures Waits(q, u) { assert Waits(p, u); }
  }

  lemma SucceedInv(p: Page, v: nat, c: Call, at: nat)
    requires Core(p) && v in p.calls && Complete(c)
    requires forall u <- p.calls :: u != v ==> Waits(p, u)
    ensures Inv(Succeed(p, v, c, at))
  {
    var q := Succeed(p, v, c, at);
    OthersWait(p, q, v);
    if v == p.syncVersion {
      assert q.calls == p.calls - {v} && q.syncVersion == v;
      var last := Applied(v, c.replies[Inventory].items, c.replies[Accounts].items);
      assert q.applied == p.applied + [last];
      AppliedGrows(p.applied, last);
    }
  }

  lemma AppliedGrows(applied: seq<Applied>, last: Applied)
    requires Increasing(applied) && forall a <- applied :: a.version < last.version
    ensures Increasing(applied + [last])
  {}

  lemma FailInv(p: Page, v: nat, boot: bool, message: Message)
    requires Core(p) && v in p.calls
    requires forall u <- p.calls :: u != v ==> Waits(p, u)
    ensures Inv(Fail(p, v, boot, message))
  {
    OthersWait(p, Fail(p, v, boot, message), v);
  }

  lemma SettleInv(p: Page, v: nat, slot: Slot, answer: Answer, at: nat)
    requires Inv(p) && Load(v, slot) in p.pending
    ensures Inv(SettleStep(p, v, slot, answer, at))
  {
    var q := p.(pending := p.pending - {Load(v, slot)});
    assert Core(q);
    forall u | u in q.calls && u != v ensures Waits(q, u) { assert Waits(p, u); }
    if v in p.calls {
      assert Waits(p, v);
      var c := p.calls[v].(replies := p.calls[v].replies[slot := answer]);
      if Needed(slot) && answer.Refused? {
        FailInv(q, v, p.calls[v].boot, answer.message);
      } else if Complete(c) {
        SucceedInv(q, v, c, at);
      } else {
        var r := q.(calls := p.calls[v := c]);
        forall u | u in r.calls ensures Waits(r, u) {
          if u != v { assert Waits(q, u); }
        }
      }
    }
  }

  lemma SameCallsInv(p: Page, q: Page)
    requires Inv(p) && Core(q) && q.calls == p.calls
    requires forall v, s :: Load(v, s) in q.pending <==> Load(v, s) in p.pending
    ensures Inv(q)
  {
    forall u | u in q.calls ensures Waits(q, u) { assert Waits(p, u); }
  }

  lemma SignOutInv(p: Page)
    requires Inv(p)
    ensures Inv(SignOutStep(p))
  {
    SameCallsInv(p, SignOutStep(p));
  }

  lemma SignInInv(p: Page, base: string, read: bool, admin: bool)
    requires Inv(p) && base != ""
    ensures Inv(Step(p, SignIn(base, read, admin)))
  {
    var q := SetSession(p.(view := p.view.(base := base)), read, admin);
    SameCallsInv(p, q);
    if read { BeginInv(q, false); }
  }

  lemma BootSessionInv(p: Page, read: bool, admin: bool)
    requires Inv(p) && p.bootWaiting
    ensures Inv(Step(p, BootSession(read, admin)))
  {
    var q := SetSession(p, read, admin).(bootWaiting := false);
    SameCallsInv(p, q);
    if read { BeginInv(q, true); } else { SameCallsInv(p, ClearInventory(q)); }
  }

  lemma BootFailInv(p: Page)
    requires Inv(p) && p.bootWaiting
    ensures Inv(Step(p, BootFail))
  {
    SameCallsInv(p, Step(p, BootFail));
  }

  lemma OtherInv(p: Page, a: Action)
    requires Inv(p) && Enabled(p, a) && (a.OtherStart? || a.OtherSettle?)
    ensures Inv(Step(p, a))
  {
    SameCallsInv(p, Step(p, a));
  }

  lemma StepInv(p: Page, a: Action)
    requires Inv(p) && Enabled(p, a)
    ensures Inv(Step(p, a))
  {
    match a
    case StartLoad => BeginInv(p, false);
    case Settle(v, slot, answer, at) => SettleInv(p, v, slot, answer, at);
    case RefuseUnsent(v, message) => FailInv(p, v, p.calls[v].boot, message);
    case SignIn(base, read, admin) => SignInInv(p, base, read, admin);
    case BootSession(read, admin) => BootSessionInv(p, read, admin);
    case SignOut => SignOutInv(p);
    case BootFail => BootFailInv(p);
    case OtherStart(_) => OtherInv(p, a);
    case OtherSettle(_) => OtherInv(p, a);
  }

  lemma {:induction false} RunInv(p: Page, actions: seq<Action>)
    requires Inv(p) && IsRun(p, actions)
    ensures Inv(Run(p, actions))
    decreases actions
  {
    if actions != [] {
      StepInv(p, actions[0]);
      RunInv(Step(p, actions[0]), actions[1..]);
    }
  }

  /** Every page ever shown, over every interleaving of loads, answers, sign-ins and sign-outs. */
  ghost predicate Reachable(p: Page) {
    exists origin, actions :: IsRun(InitialPage(origin), actions) && p == Run(InitialPage(origin), actions)
  }

  lemma ReachableInv(p: Page)
    requires Reachable(p)
    ensures Inv(p)
  {
    var origin, actions :| IsRun(InitialPage(origin), actions) && p == Run(InitialPage(origin), actions);
    InitialInv(origin);
    RunInv(InitialPage(origin), actions);
  }

  lemma ReachableStart(origin: string)
    ensures Reachable(InitialPage(origin))
  {
    assert IsRun(InitialPage(origin), []) && Run(InitialPage(origin), []) == InitialPage(origin);
  }

  lemma {:induction false} RunSnoc(p: Page, actions: seq<Action>, a: Action)
    requires IsRun(p, actions) && Enabled(Run(p, actions), a)
    ensures IsRun(p, actions + [a]) && Run(p, actions + [a]) == Step(Run(p, actions), a)
    decreases actions
  {
    var all := actions + [a];
    if actions == [] {
      assert all[1..] == [];
      assert IsRun(Step(p, a), []);
    } else {
      assert all[1..] == actions[1..] + [a];
      RunSnoc(Step(p, actions[0]), actions[1..], a);
    }
  }

  lemma ReachableStep(p: Page, a: Action)
    requires Reachable(p) && Enabled(p, a)
    ensures Reachable(Step(p, a))
  {
    var origin, actions :| IsRun(InitialPage(origin), actions) && p == Run(InitialPage(origin), actions);
    RunSnoc(InitialPage(origin), actions, a);
    var more := actions + [a];
    assert IsRun(InitialPage(origin), more) && Step(p, a) == Run(InitialPage(origin), more);
  }

  // ---------- no stale overwrite ----------

  /** Payloads reach the page in strictly increasing order of their loads, and what is on the page is the
      newest of them unless the inventory was emptied since. */
  lemma NoStaleOverwrite(p: Page)
    requires Reachable(p)
    ensures Increasing(p.applied) && ShowsNewest(p)
  {
    ReachableInv(p);
  }

  /** What a load goes on to do: a request of it settles, or it is refused before it could send any. */
  predicate Continues(a: Action, v: nat) {
    (a.Settle? || a.RefuseUnsent?) && a.version == v
  }

  /** The version of the load an action continues is not the newest. */
  predicate OfOlderLoad(p: Page, a: Action) {
    (a.Settle? || a.RefuseUnsent?) && a.version != p.syncVersion
  }

  predicate SameShown(p: Page, q: Page) {
    q.view == p.view && q.applied == p.applied && q.cleared == p.cleared && q.syncVersion == p.syncVersion
  }

  lemma OlderStepIsMute(p: Page, a: Action)
    requires Enabled(p, a) && OfOlderLoad(p, a)
    ensures SameShown(p, Step(p, a))
  {
  }

  /** However older loads go on and end, in whatever order their requests settle, fail or are refused, they leave no
      trace. */
  lemma {:induction false} OlderLoadsAreMute(p: Page, actions: seq<Action>)
    requires IsRun(p, actions) && forall a <- actions :: OfOlderLoad(p, a)
    ensures SameShown(p, Run(p, actions))
    decreases actions
  {
    if actions != [] {
      assert OfOlderLoad(p, actions[0]);
      OlderStepIsMute(p, actions[0]);
      var q := Step(p, actions[0]);
      forall a | a in actions[1..] ensures OfOlderLoad(q, a) { assert OfOlderLoad(p, a); }
      OlderLoadsAreMute(q, actions[1..]);
    }
  }

  /** An answer puts a payload on the page exactly when it is the last one the newest load waits for and
      no needed answer failed; the payload is that load's, and its version is above all before it. */
  lemma NewestApplies(p: Page, v: nat, slot: Slot, answer: Answer, at: nat)
    requires Reachable(p) && Load(v, slot) in p.pending
    ensures var q := SettleStep(p, v, slot, answer, at);
      q.applied != p.applied <==>
        && v == p.syncVersion && v in p.calls
        && !((slot == Inventory || slot == Accounts) && answer.Refused?)
        && forall s :: s != slot ==> Load(v, s) !in p.pending
    ensures var q := SettleStep(p, v, slot, answer, at);
      q.applied != p.applied ==>
        && q.applied == p.applied + [Applied(v, q.view.certificates, q.view.accounts)]
        && forall a <- p.applied :: a.version < v
  {
    ReachableInv(p);
    if v in p.calls {
      assert Waits(p, v);
      LastAnswer(p, v, slot, p.calls[v].(replies := p.calls[v].replies[slot := answer]));
      AppliesWhenComplete(p, v, slot, answer, at);
    }
  }

  lemma AppliesWhenComplete(p: Page, v: nat, slot: Slot, answer: Answer, at: nat)
    requires v in p.calls && Waits(p, v)
    ensures var q := SettleStep(p, v, slot, answer, at);
      var keys := p.calls[v].replies.Keys + {slot};
      if v == p.syncVersion && !((slot == Inventory || slot == Accounts) && answer.Refused?) && keys == SLOTS
      then q.applied == p.applied + [Applied(v, q.view.certificates, q.view.accounts)]
      else q.applied == p.applied
  {
    var c := p.calls[v].(replies := p.calls[v].replies[slot := answer]);
    assert c.replies.Keys == p.calls[v].replies.Keys + {slot};
  }

  lemma LastAnswer(p: Page, v: nat, slot: Slot, c: Call)
    requires v in p.calls && Waits(p, v) && p.calls[v].sent
    requires c.replies.Keys == p.calls[v].replies.Keys + {slot}
    ensures c.replies.Keys == SLOTS <==> forall s :: s != slot ==> Load(v, s) !in p.pending
  {
    AllSlots(slot);
    if forall s :: s != slot ==> Load(v, s) !in p.pending {
      forall s ensures s in c.replies.Keys && s in SLOTS { AllSlots(s); }
    }
    if c.replies.Keys == SLOTS {
      forall s | s != slot ensures Load(v, s) !in p.pending { AllSlots(s); }
    }
  }

  /** A load whose request is still out was sent, has no answer to it yet, and has all its answers once nothing but
      this one was missing. */
  lemma StillAwaited(p: Page, v: nat, slot: Slot)
    requires Reachable(p) && Load(v, slot) in p.pending && v in p.calls
    ensures p.calls[v].sent && slot !in p.calls[v].replies
    ensures p.calls[v].replies.Keys + {slot} == SLOTS ==> forall s :: s != slot ==> Load(v, s) !in p.pending
  {
    ReachableInv(p);
    assert Waits(p, v);
    LastAnswer(p, v, slot, p.calls[v].(replies := p.calls[v].replies[slot := Refused("refused")]));
  }

  // ---------- how a load goes on and ends ----------

  /** The inventory or the accounts were refused, without which there is nothing to show. */
  predicate Fatal(slot: Slot, answer: Answer) { (slot == Inventory || slot == Accounts) && answer.Refused? }

  /** While another request of a load is out, no answer but a fatal one ends it: the answer is kept and nothing shown
      changes. In particular a refused list of bindings or deployment does not. */
  lemma LoadGoesOn(p: Page, v: nat, slot: Slot, answer: Answer, at: nat, other: Slot)
    requires Reachable(p) && Load(v, slot) in p.pending && v in p.calls
    requires !Fatal(slot, answer) && other != slot && Load(v, other) in p.pending
    ensures var q := SettleStep(p, v, slot, answer, at);
      && SameShown(p, q) && q.pending == p.pending - {Load(v, slot)}
      && q.calls == p.calls[v := p.calls[v].(replies := p.calls[v].replies[slot := answer])]
  {
    ReachableInv(p);
    assert Waits(p, v);
    assert other !in p.calls[v].replies[slot := answer];
    AllSlots(other);
  }

  /** A fatal answer ends a load at once: nothing is applied, the message shows and the spinner stops if the load is
      the newest, and the inventory is emptied if the page's first connect made it. */
  lemma FatalEnds(p: Page, v: nat, slot: Slot, answer: Answer, at: nat)
    requires Reachable(p) && Load(v, slot) in p.pending && v in p.calls && Fatal(slot, answer)
    ensures var q := SettleStep(p, v, slot, answer, at);
      && q.calls == p.calls - {v} && q.applied == p.applied
      && (v != p.syncVersion ==> q.view == p.view)
      && (v == p.syncVersion && !p.calls[v].boot ==>
            q.view == p.view.(syncError := answer.message, syncing := false))
      && (v == p.syncVersion && p.calls[v].boot ==>
            q.view == p.view.(syncError := answer.message, syncing := false,
                              certificates := [], accounts := [], live := false))
  {
  }

  /** The view that shows a load's four answers: its inventory and accounts, and the messages of the other two if they
      were refused. */
  predicate ShowsAnswers(v: View, replies: map<Slot, Answer>)
    requires replies.Keys == SLOTS && replies[Inventory].Got? && replies[Accounts].Got?
  {
    && v.certificates == replies[Inventory].items && v.accounts == replies[Accounts].items && v.live && !v.syncing
    && (match replies[Bindings]
        case Got(_, _) => v.syncError == ""
        case Refused(message) => v.syncError == "Binding lookup failed: " + message)
    && (match replies[Deployment]
        case Got(_, info) => v.deployment == Some(info) && v.deploymentError == ""
        case Refused(message) => v.deployment == None && v.deploymentError == message)
  }

  /** The last answer of the newest load, if it is not fatal, completes it: the page shows all four answers, and the
      session stays as it was. */
  lemma LastAnswerShows(p: Page, v: nat, slot: Slot, answer: Answer, at: nat)
    requires Reachable(p) && Load(v, slot) in p.pending && v in p.calls && v == p.syncVersion
    requires !Fatal(slot, answer) && forall s :: s != slot ==> Load(v, s) !in p.pending
    ensures var q := SettleStep(p, v, slot, answer, at);
      var replies := p.calls[v].replies[slot := answer];
      && q.calls == p.calls - {v}
      && replies.Keys == SLOTS && replies[Inventory].Got? && replies[Accounts].Got?
      && ShowsAnswers(q.view, replies) && q.view.lastSynced == Some(at)
      && q.view.base == p.view.base && q.view.sessionOK == p.view.sessionOK
      && q.view.canRead == p.view.canRead && q.view.canAdmin == p.view.canAdmin
  {
    LastCompletes(p, v, slot, answer);
  }

  lemma LastCompletes(p: Page, v: nat, slot: Slot, answer: Answer)
    requires Reachable(p) && Load(v, slot) in p.pending && v in p.calls
    requires !Fatal(slot, answer) && forall s :: s != slot ==> Load(v, s) !in p.pending
    ensures var replies := p.calls[v].replies[slot := answer];
      replies.Keys == SLOTS && replies[Inventory].Got? && replies[Accounts].Got?
  {
    ReachableInv(p);
    assert Waits(p, v);
    LastAnswer(p, v, slot, p.calls[v].(replies := p.calls[v].replies[slot := answer]));
    KeptAnswers(p, v, slot, answer);
  }

  lemma KeptAnswers(p: Page, v: nat, slot: Slot, answer: Answer)
    requires v in p.calls && Waits(p, v) && !Fatal(slot, answer)
    ensures var replies := p.calls[v].replies[slot := answer];
      && (Inventory in replies ==> replies[Inventory].Got?)
      && (Accounts in replies ==> replies[Accounts].Got?)
  {
    assert Needed(Inventory) && Needed(Accounts);
  }

  /** A load sends its four requests if there is a session that may read, and none otherwise. */
  lemma LoadSends(p: Page, boot: bool)
    ensures var q := Begin(p, boot);
      var v := p.syncVersion + 1;
      var may := p.view.base != "" && p.view.sessionOK && p.view.canRead;
      && q.syncVersion == v && v in q.calls && q.calls[v] == Call(boot, may, map[])
      && q.view == p.view.(syncing := true)
      && (forall s :: Load(v, s) in q.pending <==> may || Load(v, s) in p.pending)
      && (forall r :: r in q.pending && r !in p.pending ==> r.Load? && r.version == v)
      && p.pending <= q.pending
  {
    forall s ensures s in SLOTS { AllSlots(s); }
  }

  /** A sign-in sets the session exactly as the daemon granted it, and loads exactly if it grants reading. */
  lemma SignInSets(p: Page, base: string, read: bool, admin: bool)
    requires base != ""
    ensures var q := Step(p, SignIn(base, read, admin));
      && q.view.base == base && q.view.canRead == read && q.view.canAdmin == admin
      && q.view.sessionOK == (read || admin)
      && q.syncVersion == (if read then p.syncVersion + 1 else p.syncVersion)
      && (read ==> q.syncVersion in q.calls && q.calls[q.syncVersion] == Call(false, true, map[]))
      && (!read ==> q.calls == p.calls && q.pending == p.pending)
      && q.view.certificates == p.view.certificates && q.view.accounts == p.view.accounts
  {
  }

  /** A sign-out clears the session and everything that was shown, and aborts every request that is out. */
  lemma SignOutClears(p: Page)
    ensures var q := Step(p, SignOut);
      && q.view == View("", false, false, false, false, "", None, None, "", [], [], false)
      && q.syncVersion == p.syncVersion + 1 && q.pending == p.pending && p.pending <= q.aborted
      && q.calls == p.calls && q.applied == p.applied
  {
  }

  /** The first connect's session is set as granted; it loads exactly if reading is granted, and shows nothing
      otherwise. */
  lemma BootSessionSets(p: Page, read: bool, admin: bool)
    requires p.bootWaiting
    ensures var q := Step(p, BootSession(read, admin));
      && !q.bootWaiting && q.view.base == p.view.base
      && q.view.canRead == read && q.view.canAdmin == admin && q.view.sessionOK == (read || admin)
      && (read ==> q.syncVersion == p.syncVersion + 1 && q.syncVersion in q.calls && q.calls[q.syncVersion].boot)
      && (!read ==> q.view.certificates == [] && q.view.accounts == [] && !q.view.live && q.calls == p.calls)
  {
  }

  // ---------- the spinner ----------

  /** The spinner turns exactly while the newest load is in flight, and then something is still to come
      that can end that load: an answer it waits for, or its refusal. */
  lemma SpinnerTellsTruth(p: Page)
    requires Reachable(p)
    ensures p.view.syncing <==> p.syncVersion in p.calls
    ensures p.view.syncing ==>
      if p.calls[p.syncVersion].sent then exists s :: Load(p.syncVersion, s) in p.pending
      else forall message :: Enabled(p, RefuseUnsent(p.syncVersion, message))
  {
    ReachableInv(p);
    if p.view.syncing && p.calls[p.syncVersion].sent {
      var c := p.calls[p.syncVersion];
      assert Waits(p, p.syncVersion);
      if forall s :: Load(p.syncVersion, s) !in p.pending {
        assert forall s :: s in c.replies;
        forall s ensures s in SLOTS { AllSlots(s); }
        assert c.replies.Keys == SLOTS;
        assert Needed(Inventory) && Needed(Accounts);
        assert false;
      }
    }
  }

  // ---------- signing out ----------

  predicate GrantsRead(a: Action) { (a.SignIn? || a.BootSession?) && a.read }

  /** Signed out at version `n`: nothing is shown, and no load started since was allowed its requests. */
  ghost predicate Quiet(p: Page, n: nat) {
    && n <= p.syncVersion && n !in p.calls
    && !p.view.canRead && p.cleared
    && forall v <- p.calls :: v > n ==> !p.calls[v].sent
  }

  lemma QuietSettles(p: Page, v: nat, slot: Slot, answer: Answer, at: nat, n: nat)
    requires Inv(p) && Quiet(p, n) && Load(v, slot) in p.pending
    ensures Quiet(SettleStep(p, v, slot, answer, at), n)
  {
    if v in p.calls { assert Waits(p, v); }
  }

  lemma QuietStep(p: Page, a: Action, n: nat)
    requires Inv(p) && Quiet(p, n) && Enabled(p, a) && !GrantsRead(a)
    ensures Quiet(Step(p, a), n)
  {
    if a.Settle? { QuietSettles(p, a.version, a.slot, a.answer, a.at, n); }
  }

  lemma {:induction false} QuietRun(p: Page, actions: seq<Action>, n: nat)
    requires Inv(p) && Quiet(p, n) && IsRun(p, actions) && forall a <- actions :: !GrantsRead(a)
    ensures Quiet(Run(p, actions), n)
    decreases actions
  {
    if actions != [] {
      assert actions[0] in actions;
      QuietStep(p, actions[0], n);
      StepInv(p, actions[0]);
      QuietRun(Step(p, actions[0]), actions[1..], n);
    }
  }

  /** After a sign-out the inventory is empty and stays empty, whatever was in flight, until a session
      that may read is set. */
  lemma StaysEmptyAfterSignOut(p: Page, actions: seq<Action>)
    requires Reachable(p) && IsRun(SignOutStep(p), actions) && forall a <- actions :: !GrantsRead(a)
    ensures var v := Run(SignOutStep(p), actions).view;
      v.certificates == [] && v.accounts == [] && !v.live && !MayRead(v)
  {
    ReachableInv(p);
    StepInv(p, SignOut);
    var q := SignOutStep(p);
    QuietRun(q, actions, q.syncVersion);
    RunInv(q, actions);
  }

  lemma {:induction false} VersionGrows(p: Page, actions: seq<Action>)
    requires IsRun(p, actions)
    ensures Run(p, actions).syncVersion >= p.syncVersion
    decreases actions
  {
    if actions != [] { VersionGrows(Step(p, actions[0]), actions[1..]); }
  }

  /** No load started before a sign-out changes anything shown after it, whether its requests were sent or not, and
      each of its requests still out at the sign-out has been aborted. */
  lemma EarlierLoadsAreMute(p: Page, actions: seq<Action>, v: nat, a: Action)
    requires v <= p.syncVersion && IsRun(SignOutStep(p), actions)
    requires Continues(a, v) && Enabled(Run(SignOutStep(p), actions), a)
    ensures var q := Run(SignOutStep(p), actions); SameShown(q, Step(q, a))
    ensures forall slot :: Load(v, slot) in p.pending ==> Load(v, slot) in SignOutStep(p).aborted
  {
    VersionGrows(SignOutStep(p), actions);
    OlderStepIsMute(Run(SignOutStep(p), actions), a);
  }

  // ---------- the first connect ----------

  /** The first connect can still empty the inventory: its session has not been answered, or its load is the newest
      one and was refused its requests or waits for an answer it needs. */
  ghost predicate BootThreatens(p: Page) {
    || p.bootWaiting
    || (p.syncVersion in p.calls && p.calls[p.syncVersion].boot
        && (|| !p.calls[p.syncVersion].sent
            || Load(p.syncVersion, Inventory) in p.pending || Load(p.syncVersion, Accounts) in p.pending))
  }

  lemma BootStep(p: Page, a: Action)
    requires !BootThreatens(p) && !p.cleared && Enabled(p, a) && a != SignOut
    ensures !BootThreatens(Step(p, a)) && !Step(p, a).cleared
  {
  }

  lemma {:induction false} BootStaysHarmless(p: Page, actions: seq<Action>)
    requires !BootThreatens(p) && !p.cleared && IsRun(p, actions) && SignOut !in actions
    ensures !BootThreatens(Run(p, actions)) && !Run(p, actions).cleared
    decreases actions
  {
    if actions != [] {
      BootStep(p, actions[0]);
      BootStaysHarmless(Step(p, actions[0]), actions[1..]);
    }
  }

  lemma BootEmpties(p: Page) returns (a: Action)
    requires BootThreatens(p)
    ensures Enabled(p, a) && a != SignOut && Step(p, a).cleared
  {
    if p.bootWaiting {
      a := BootFail;
    } else if !p.calls[p.syncVersion].sent {
      a := RefuseUnsent(p.syncVersion, "refused");
    } else {
      var s := if Load(p.syncVersion, Inventory) in p.pending then Inventory else Accounts;
      a := Settle(p.syncVersion, s, Refused("refused"), 0);
    }
  }

  /** Without a sign-out a shown inventory can be emptied exactly as long as the first connect threatens it. */
  lemma CanEmptyExactly(p: Page)
    requires !p.cleared
    ensures (exists actions :: IsRun(p, actions) && SignOut !in actions && Run(p, actions).cleared)
       <==> BootThreatens(p)
  {
    if BootThreatens(p) {
      var a := BootEmpties(p);
      assert IsRun(p, []) && Run(p, []) == p;
      RunSnoc(p, [], a);
      var actions := [] + [a];
      assert IsRun(p, actions) && SignOut !in actions && Run(p, actions).cleared;
    } else {
      forall actions | IsRun(p, actions) && SignOut !in actions ensures !Run(p, actions).cleared {
        BootStaysHarmless(p, actions);
      }
    }
  }

  /** Once the first connect threatens nothing, only a sign-out empties the inventory: until then the page shows the
      newest payload applied. */
  lemma OnlySignOutEmpties(p: Page, actions: seq<Action>)
    requires Reachable(p) && !BootThreatens(p) && !p.cleared && IsRun(p, actions) && SignOut !in actions
    ensures var q := Run(p, actions);
      && q.applied != [] && q.view.live
      && q.view.certificates == q.applied[|q.applied| - 1].certificates
      && q.view.accounts == q.applied[|q.applied| - 1].accounts
  {
    ReachableInv(p);
    BootStaysHarmless(p, actions);
    RunInv(p, actions);
  }

  /** The action ends the newest load, made by the first connect, with a failure. */
  predicate FailsFirstConnect(p: Page, a: Action) {
    match a
    case Settle(v, slot, answer, _) =>
      v == p.syncVersion && v in p.calls && p.calls[v].boot
      && (slot == Inventory || slot == Accounts) && answer.Refused?
    case RefuseUnsent(v, _) => v == p.syncVersion && v in p.calls && p.calls[v].boot
    case _ => false
  }

  /** What empties an inventory: a sign-out, or the first connect failing, which is not held against the
      loads applied in the meantime. */
  lemma EmptiesExactly(p: Page, a: Action)
    requires Enabled(p, a) && !p.cleared
    ensures Step(p, a).cleared
       <==> a == SignOut || a == BootFail || (a.BootSession? && !a.read) || FailsFirstConnect(p, a)
  {}

  /** So the first connect can empty an inventory that a sign-in has just loaded. */
  lemma FirstConnectCanEmpty()
    ensures exists actions ::
      && IsRun(InitialPage("origin"), actions) && SignOut !in actions
      && var p := Run(InitialPage("origin"), actions);
         p.applied == [Applied(1, ["a"], [])] && p.view.certificates == [] && !p.view.live
  {
    var got := Got([], "");
    var p0 := InitialPage("origin");
    var p1, p2, p3, p4, p5 := LoadedBeforeBoot(p0, got);
    var run1 := BootDenied(p5);
    var run2 := Extend(p4, Settle(1, Deployment, got, 0), p5, run1);
    var run3 := Extend(p3, Settle(1, Bindings, got, 0), p4, run2);
    var run4 := Extend(p2, Settle(1, Accounts, got, 0), p3, run3);
    var run5 := Extend(p1, Settle(1, Inventory, Got(["a"], ""), 0), p2, run4);
    var run6 := Extend(p0, SignIn("origin", true, false), p1, run5);
  }

  lemma BootDenied(p: Page) returns (run: seq<Action>)
    requires p.bootWaiting
    ensures SignOut !in run && IsRun(p, run)
    ensures var q := Run(p, run);
      q.applied == p.applied && q.view.certificates == [] && !q.view.live
  {
    run := [BootSession(false, false)];
    assert run[1..] == [];
    assert IsRun(Step(p, run[0]), run[1..]);
  }

  lemma Extend(p: Page, a: Action, q: Page, rest: seq<Action>) returns (run: seq<Action>)
    requires Enabled(p, a) && q == Step(p, a) && a != SignOut
    requires IsRun(q, rest) && SignOut !in rest
    ensures IsRun(p, run) && Run(p, run) == Run(q, rest) && SignOut !in run
  {
    run := [a] + rest;
    assert run[1..] == rest;
  }

  lemma LoadedBeforeBoot(p0: Page, got: Answer) returns (p1: Page, p2: Page, p3: Page, p4: Page, p5: Page)
    requires p0 == InitialPage("origin") && got == Got([], "")
    ensures p1 == Step(p0, SignIn("origin", true, false))
    ensures p2 == SettleStep(p1, 1, Inventory, Got(["a"], ""), 0) && Load(1, Inventory) in p1.pending
    ensures p3 == SettleStep(p2, 1, Accounts, got, 0) && Load(1, Accounts) in p2.pending
    ensures p4 == SettleStep(p3, 1, Bindings, got, 0) && Load(1, Bindings) in p3.pending
    ensures p5 == SettleStep(p4, 1, Deployment, got, 0) && Load(1, Deployment) in p4.pending
    ensures p5.applied == [Applied(1, ["a"], [])] && p5.bootWaiting
  {
    p1 := Step(p0, SignIn("origin", true, false));
    SignedIn(p0, p1);
    p2, p3, p4 := ThreeAnswers(p1, got);
    p5 := SettleStep(p4, 1, Deployment, got, 0);
    LastStepApplies(p4, p4.calls[1], got);
  }

  lemma SignedIn(p: Page, q: Page)
    requires p == InitialPage("origin") && q == Step(p, SignIn("origin", true, false))
    ensures q.syncVersion == 1 && q.calls == map[1 := Call(false, true, map[])] && q.applied == [] && q.bootWaiting
    ensures forall s :: Load(1, s) in q.pending
  {
    forall s ensures s in SLOTS { AllSlots(s); }
  }

  lemma ThreeAnswers(p1: Page, got: Answer) returns (p2: Page, p3: Page, p4: Page)
    requires p1.syncVersion == 1 && p1.calls == map[1 := Call(false, true, map[])] && p1.applied == [] && p1.bootWaiting
    requires (forall s :: Load(1, s) in p1.pending) && got == Got([], "")
    ensures p2 == SettleStep(p1, 1, Inventory, Got(["a"], ""), 0) && Load(1, Accounts) in p2.pending
    ensures p3 == SettleStep(p2, 1, Accounts, got, 0) && Load(1, Bindings) in p3.pending
    ensures p4 == SettleStep(p3, 1, Bindings, got, 0) && Load(1, Deployment) in p4.pending
    ensures p4.syncVersion == 1 && p4.applied == [] && p4.bootWaiting
    ensures p4.calls == map[1 := Call(false, true, map[Inventory := Got(["a"], ""), Accounts := got, Bindings := got])]
  {
    p2 := SettleStep(p1, 1, Inventory, Got(["a"], ""), 0);
    assert p2.calls == map[1 := Call(false, true, map[Inventory := Got(["a"], "")])];
    p3 := SettleStep(p2, 1, Accounts, got, 0);
    assert p3.calls == map[1 := Call(false, true, map[Inventory := Got(["a"], ""), Accounts := got])];
    p4 := SettleStep(p3, 1, Bindings, got, 0);
  }

  lemma LastStepApplies(p: Page, c: Call, got: Answer)
    requires c.replies == map[Inventory := Got(["a"], ""), Accounts := got, Bindings := got]
    requires got == Got([], "") && p.syncVersion == 1 && p.calls == map[1 := c] && p.applied == []
    ensures SettleStep(p, 1, Deployment, got, 0).applied == [Applied(1, ["a"], [])]
    ensures SettleStep(p, 1, Deployment, got, 0).bootWaiting == p.bootWaiting
  {
    var d := c.(replies := c.replies[Deployment := got]);
    assert d.replies.Keys == SLOTS;
  }
}
