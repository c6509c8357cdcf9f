/**
 The gate that lets ordinary writers overlap and gives maintenance the place to itself.

 Every critical section runs between two awaits, so the condition's lock is never contended and
 one section is one step. A task that finds its predicate false parks; `notify_all` unparks every
 task, and each then tests its own predicate again.
 */
module MaintenanceGate {
  import opened Results

  type Task = nat

  datatype Scope = Shared | Exclusive

  /** The three fields of the gate, and what the tasks around it are doing. */
  datatype State = State(
    holders: map<Task, nat>,
    owner: Option<Task>,
    waiting: nat,
    open: map<Task, seq<Scope>>,
    asked: map<Task, Scope>,
    parked: set<Task>)

  datatype Action =
    | Ask(task: Task, scope: Scope)
    | Wake(task: Task)
    | Leave(task: Task)
    | Cancel(task: Task)

  function OpenScopes(s: State, t: Task): seq<Scope> {
    if t in s.open then s.open[t] else []
  }

  function Held(s: State, t: Task): nat {
    if t in s.holders then s.holders[t] else 0
  }

  predicate May(s: State, t: Task, scope: Scope) {
    match scope
    case Shared => s.owner == Some(t) || t in s.holders || (s.owner.None? && s.waiting == 0)
    case Exclusive => s.holders == map[] && s.owner.None?
  }

  predicate Enabled(s: State, a: Action) {
    match a
    case Ask(t, scope) => t !in s.asked
    case Wake(t) => t in s.asked && t !in s.parked
    case Leave(t) => t !in s.asked && OpenScopes(s, t) != []
    case Cancel(t) => t in s.asked
  }

  function Register(s: State, t: Task, scope: Scope): State {
    s.(asked := s.asked[t := scope], waiting := if scope.Exclusive? then s.waiting + 1 else s.waiting)
  }

  /** The request is over, granted or not: an exclusive one stops being counted and tells everyone. */
  function Withdraw(s: State, t: Task): State
    requires t in s.asked
  {
    if s.asked[t].Exclusive? then
      s.(asked := s.asked - {t}, waiting := if s.waiting > 0 then s.waiting - 1 else 0, parked := {})
    else s.(asked := s.asked - {t}, parked := s.parked - {t})
  }

  /** One test of the predicate, and the entry if it holds. */
  function Attempt(s: State, t: Task): State
    requires t in s.asked
  {
    var scope := s.asked[t];
    if !May(s, t, scope) then s.(parked := s.parked + {t})
    else
      var entered := Withdraw(s, t).(open := s.open[t := OpenScopes(s, t) + [scope]]);
      if scope.Shared? then entered.(holders := s.holders[t := Held(s, t) + 1])
      else entered.(owner := Some(t))
  }

  function Release(s: State, t: Task): State
    requires OpenScopes(s, t) != []
  {
    var scopes := OpenScopes(s, t);
    var left := s.(open := s.open[t := scopes[..|scopes| - 1]], parked := {});
    if scopes[|scopes| - 1].Exclusive? then left.(owner := None)
    else if Held(s, t) <= 1 then left.(holders := s.holders - {t})
    else left.(holders := s.holders[t := Held(s, t) - 1])
  }

  function After(s: State, a: Action): State
    requires Enabled(s, a)
  {
    match a
    case Ask(t, scope) => Attempt(Register(s, t, scope), t)
    case Wake(t) => Attempt(s, t)
    case Leave(t) => Release(s, t)
    case Cancel(t) => Withdraw(s, t)
  }

  // ----- What holds between any two steps -----

  function SharedScopes(scopes: seq<Scope>): nat {
    if scopes == [] then 0
    else SharedScopes(scopes[..|scopes| - 1]) + (if scopes[|scopes| - 1].Shared? then 1 else 0)
  }

  ghost predicate CountsAgree(s: State) {
    forall t: Task :: Held(s, t) == SharedScopes(OpenScopes(s, t)) && (t in s.holders ==> s.holders[t] > 0)
  }

  /** A task owns the gate exactly while its outermost open scope is the exclusive one. */
  ghost predicate OwnerAgrees(s: State) {
    forall t: Task, i: nat :: i < |OpenScopes(s, t)| ==>
      (OpenScopes(s, t)[i].Exclusive? <==> i == 0 && s.owner == Some(t))
  }

  ghost predicate OwnerHasOpened(s: State) {
    s.owner.Some? ==> OpenScopes(s, s.owner.value) != []
  }

  /** While a task owns the gate, no other task holds it. */
  predicate Alone(s: State) {
    s.owner.Some? ==> s.holders.Keys <= {s.owner.value}
  }

  function Blocked(s: State): set<Task> {
    set t | t in s.asked && s.asked[t].Exclusive?
  }

  predicate WaitingAgrees(s: State) {
    s.waiting == |Blocked(s)|
  }

  /** No wake-up is lost: a task sleeps only while it could not enter. */
  predicate NobodySleepsOnAnOpenGate(s: State) {
    s.parked <= s.asked.Keys && forall t | t in s.parked :: !May(s, t, s.asked[t])
  }

  ghost predicate Inv(s: State) {
    && CountsAgree(s)
    && OwnerAgrees(s)
    && OwnerHasOpened(s)
    && Alone(s)
    && WaitingAgrees(s)
    && NobodySleepsOnAnOpenGate(s)
  }

  lemma CountLast(scopes: seq<Scope>, scope: Scope)
    ensures SharedScopes(scopes + [scope]) == SharedScopes(scopes) + (if scope.Shared? then 1 else 0)
  {
    assert (scopes + [scope])[..|scopes|] == scopes;
  }

  lemma RegisterKeeps(s: State, t: Task, scope: Scope)
    requires Inv(s) && t !in s.asked
    ensures Inv(Register(s, t, scope))
  {
    hide CountsAgree, OwnerAgrees;
    var r := Register(s, t, scope);
    SameCounts(s, r);
    SameOwner(s, r);
    if scope.Exclusive? {
      assert Blocked(r) == Blocked(s) + {t};
    } else {
      assert Blocked(r) == Blocked(s);
    }
  }

  lemma WithdrawKeeps(s: State, t: Task)
    requires Inv(s) && t in s.asked
    ensures Inv(Withdraw(s, t))
    ensures s.asked[t].Exclusive? ==> s.waiting > 0
  {
    hide CountsAgree, OwnerAgrees, WaitingAgrees, Alone;
    var r := Withdraw(s, t);
    SameCounts(s, r);
    SameOwner(s, r);
    WithdrawnCount(s, t);
    AloneStays(s, r);
  }

  lemma AloneStays(s: State, r: State)
    requires Alone(s) && s.owner == r.owner && s.holders == r.holders
    ensures Alone(r)
  {
  }

  lemma WithdrawnCount(s: State, t: Task)
    requires WaitingAgrees(s) && t in s.asked
    ensures WaitingAgrees(Withdraw(s, t))
    ensures s.asked[t].Exclusive? ==> s.waiting > 0
  {
    var r := Withdraw(s, t);
    if s.asked[t].Exclusive? {
      assert t in Blocked(s) && Blocked(r) == Blocked(s) - {t};
    } else {
      assert Blocked(r) == Blocked(s);
    }
  }

  lemma EmptyMeansNone(s: State, t: Task)
    requires CountsAgree(s) && OwnerAgrees(s) && s.holders == map[] && s.owner.None?
    ensures OpenScopes(s, t) == []
  {
    var scopes := OpenScopes(s, t);
    assert SharedScopes(scopes) == Held(s, t) == 0;
  }

  lemma SameCounts(s: State, r: State)
    requires s.open == r.open && s.holders == r.holders && CountsAgree(s)
    ensures CountsAgree(r)
  {
    assert forall u: Task :: OpenScopes(r, u) == OpenScopes(s, u) && Held(r, u) == Held(s, u);
  }

  lemma SameOwner(s: State, r: State)
    requires s.open == r.open && s.owner == r.owner && OwnerAgrees(s)
    ensures OwnerAgrees(r)
  {
    assert forall u: Task :: OpenScopes(r, u) == OpenScopes(s, u);
  }

  lemma CountsAfterGrant(s: State, r: State, t: Task, scope: Scope)
    requires CountsAgree(s) && r.open == s.open[t := OpenScopes(s, t) + [scope]]
    requires r.holders == if scope.Shared? then s.holders[t := Held(s, t) + 1] else s.holders
    ensures CountsAgree(r)
  {
    CountLast(OpenScopes(s, t), scope);
    forall u: Task ensures Held(r, u) == SharedScopes(OpenScopes(r, u)) && (u in r.holders ==> r.holders[u] > 0) {
      assert Held(s, u) == SharedScopes(OpenScopes(s, u));
      assert OpenScopes(r, u) == if u == t then OpenScopes(s, t) + [scope] else OpenScopes(s, u);
    }
  }

  lemma GrantKeepsTheRest(s: State, t: Task)
    requires Inv(s) && t in s.asked && May(s, t, s.asked[t])
    ensures var r := Attempt(s, t); Alone(r) && WaitingAgrees(r) && NobodySleepsOnAnOpenGate(r) && CountsAgree(r)
  {
    hide CountsAgree, OwnerAgrees;
    var scope, r, w := s.asked[t], Attempt(s, t), Withdraw(s, t);
    WithdrawKeeps(s, t);
    assert Blocked(r) == Blocked(w);
    CountsAfterGrant(s, r, t, scope);
  }

  lemma GrantKeepsOwner(s: State, t: Task)
    requires Inv(s) && t in s.asked && May(s, t, s.asked[t])
    ensures OwnerAgrees(Attempt(s, t)) && OwnerHasOpened(Attempt(s, t))
  {
    var scope, r := s.asked[t], Attempt(s, t);
    hide SharedScopes;
    if scope.Exclusive? {
      forall u: Task ensures OpenScopes(s, u) == [] {
        EmptyMeansNone(s, u);
      }
    }
    assert forall u: Task :: OpenScopes(r, u) == if u == t then OpenScopes(s, t) + [scope] else OpenScopes(s, u);
    if scope.Shared? && s.owner == Some(t) {
      assert OpenScopes(s, t) != [];
    }
  }

  lemma AttemptKeeps(s: State, t: Task)
    requires Inv(s) && t in s.asked
    ensures Inv(Attempt(s, t))
  {
    hide CountsAgree, OwnerAgrees;
    if May(s, t, s.asked[t]) {
      GrantKeepsTheRest(s, t);
      GrantKeepsOwner(s, t);
    } else {
      var r := Attempt(s, t);
      SameCounts(s, r);
      SameOwner(s, r);
      assert Blocked(r) == Blocked(s);
    }
  }

  lemma OpenAfterRelease(s: State, t: Task)
    requires OwnerAgrees(s) && OwnerHasOpened(s) && OpenScopes(s, t) != []
    ensures OwnerAgrees(Release(s, t)) && OwnerHasOpened(Release(s, t))
  {
    hide SharedScopes;
    var r, scopes := Release(s, t), OpenScopes(s, t);
    var inner := scopes[..|scopes| - 1];
    assert forall u: Task :: OpenScopes(r, u) == if u == t then inner else OpenScopes(s, u);
    assert scopes[|scopes| - 1].Exclusive? <==> |scopes| == 1 && s.owner == Some(t);
    assert inner != [] ==> inner[0] == scopes[0];
  }

  lemma CountsAfterRelease(s: State, t: Task)
    requires CountsAgree(s) && OpenScopes(s, t) != []
    ensures CountsAgree(Release(s, t))
  {
    var r, scopes := Release(s, t), OpenScopes(s, t);
    assert Held(s, t) == SharedScopes(scopes);
    forall u: Task ensures Held(r, u) == SharedScopes(OpenScopes(r, u)) && (u in r.holders ==> r.holders[u] > 0) {
      assert Held(s, u) == SharedScopes(OpenScopes(s, u));
      assert OpenScopes(r, u) == if u == t then scopes[..|scopes| - 1] else OpenScopes(s, u);
    }
  }

  lemma ReleaseKeeps(s: State, t: Task)
    requires Inv(s) && t !in s.asked && OpenScopes(s, t) != []
    ensures Inv(Release(s, t))
  {
    hide CountsAgree, OwnerAgrees, OwnerHasOpened, SharedScopes;
    OpenAfterRelease(s, t);
    CountsAfterRelease(s, t);
    assert Blocked(Release(s, t)) == Blocked(s);
  }

  lemma SharedMeansHeld(s: State, t: Task)
    requires Inv(s) && OpenScopes(s, t) != [] && OpenScopes(s, t)[|OpenScopes(s, t)| - 1].Shared?
    ensures t in s.holders && s.holders[t] > 0
  {
    assert Held(s, t) == SharedScopes(OpenScopes(s, t)) > 0;
  }

  /** Every step keeps the invariant. */
  lemma StepKeeps(s: State, a: Action)
    requires Inv(s) && Enabled(s, a)
    ensures Inv(After(s, a))
  {
    match a
    case Ask(t, scope) =>
      RegisterKeeps(s, t, scope);
      AttemptKeeps(Register(s, t, scope), t);
    case Wake(t) => AttemptKeeps(s, t);
    case Leave(t) => ReleaseKeeps(s, t);
    case Cancel(t) => WithdrawKeeps(s, t);
  }

  // ----- Runs: any interleaving of the tasks' steps -----

  function Start(): State {
    State(map[], None, 0, map[], map[], {})
  }

  ghost predicate Run(states: seq<State>, actions: seq<Action>) {
    && |states| == |actions| + 1
    && forall i: nat | i < |actions| :: Enabled(states[i], actions[i]) && states[i + 1] == After(states[i], actions[i])
  }

  lemma {:induction false} RunKeeps(states: seq<State>, actions: seq<Action>, i: nat)
    requires Run(states, actions) && Inv(states[0]) && i < |states|
    ensures Inv(states[i])
  {
    if i > 0 {
      RunKeeps(states, actions, i - 1);
      StepKeeps(states[i - 1], actions[i - 1]);
    }
  }

  /** At every moment of every run: an owner is alone, and every hold is an open scope. */
  lemma GateIsSafe(states: seq<State>, actions: seq<Action>, i: nat, owner: Task, other: Task)
    requires Run(states, actions) && states[0] == Start() && i < |states|
    ensures Held(states[i], other) == SharedScopes(OpenScopes(states[i], other))
    ensures states[i].owner == Some(owner) && other != owner ==> OpenScopes(states[i], other) == []
    ensures states[i].waiting == |Blocked(states[i])|
  {
    RunKeeps(states, actions, i);
    var s := states[i];
    if s.owner == Some(owner) && other != owner && OpenScopes(s, other) != [] {
      var scopes := OpenScopes(s, other);
      assert scopes[|scopes| - 1].Shared?;
      assert other in s.holders;
    }
  }

  // ----- What is granted, said of the scopes that are open -----

  ghost predicate Nobody(s: State) {
    forall t: Task :: OpenScopes(s, t) == []
  }

  /** Nobody has the gate to itself, and nobody is waiting for that. */
  ghost predicate Unclaimed(s: State) {
    (forall t: Task :: Exclusive !in OpenScopes(s, t)) && Blocked(s) == {}
  }

  /** Whoever is inside may go further in; others share an unclaimed gate, and claim one with nobody inside. */
  ghost predicate Welcome(s: State, t: Task, scope: Scope) {
    if scope.Shared? then OpenScopes(s, t) != [] || Unclaimed(s) else Nobody(s)
  }

  /** Nothing changed but what one task has open and asks for. */
  ghost predicate OnlyOne(s: State, r: State, t: Task) {
    forall u: Task | u != t ::
      && OpenScopes(r, u) == OpenScopes(s, u)
      && (u in r.asked <==> u in s.asked) && (u in s.asked ==> r.asked[u] == s.asked[u])
  }

  lemma InsideExactly(s: State, t: Task)
    requires Inv(s)
    ensures OpenScopes(s, t) != [] <==> s.owner == Some(t) || t in s.holders
  {
    var scopes := OpenScopes(s, t);
    if scopes != [] && s.owner != Some(t) {
      assert scopes[|scopes| - 1].Shared?;
      SharedMeansHeld(s, t);
    }
  }

  lemma OwnedExactly(s: State)
    requires Inv(s)
    ensures s.owner.None? <==> forall t: Task :: Exclusive !in OpenScopes(s, t)
  {
    if s.owner.Some? {
      assert OpenScopes(s, s.owner.value)[0].Exclusive?;
    }
  }

  lemma MayExactly(s: State, t: Task, scope: Scope)
    requires Inv(s) && (scope.Shared? || t in Blocked(s) || t !in s.asked)
    ensures May(s, t, scope) <==> Welcome(s, t, scope)
  {
    hide CountsAgree, OwnerAgrees, Inv;
    if scope.Shared? {
      InsideExactly(s, t);
      OwnedExactly(s);
      assert s.waiting == 0 <==> Blocked(s) == {} by {
        CountedIn(s);
      }
    } else {
      forall u: Task ensures OpenScopes(s, u) == [] <==> s.owner != Some(u) && u !in s.holders {
        InsideExactly(s, u);
      }
      assert s.holders != map[] ==> exists u :: u in s.holders;
    }
  }

  lemma CountedIn(s: State)
    requires Inv(s)
    ensures s.waiting == |Blocked(s)|
  {
  }

  /**
   At every moment of every run: a request is granted at once exactly if it is welcome, and tried again
   it is granted exactly if it is by then; leaving closes the innermost scope; and none of this touches
   what other tasks have open or ask for.
   */
  lemma GrantedExactly(states: seq<State>, actions: seq<Action>, i: nat)
    requires Run(states, actions) && Inv(states[0]) && i < |actions|
    ensures var s, r, t := states[i], states[i + 1], actions[i].task;
      && OnlyOne(s, r, t)
      && match actions[i]
         case Ask(_, scope) =>
           if Welcome(s, t, scope) then t !in r.asked && OpenScopes(r, t) == OpenScopes(s, t) + [scope]
           else t in r.asked && r.asked[t] == scope && OpenScopes(r, t) == OpenScopes(s, t)
         case Wake(_) =>
           if Welcome(s, t, s.asked[t]) then t !in r.asked && OpenScopes(r, t) == OpenScopes(s, t) + [s.asked[t]]
           else t in r.asked && r.asked[t] == s.asked[t] && OpenScopes(r, t) == OpenScopes(s, t)
         case Leave(_) => t !in r.asked && OpenScopes(r, t) == OpenScopes(s, t)[..|OpenScopes(s, t)| - 1]
         case Cancel(_) => t !in r.asked && OpenScopes(r, t) == OpenScopes(s, t)
  {
    hide Inv, Welcome;
    RunKeeps(states, actions, i);
    var s, t := states[i], actions[i].task;
    match actions[i]
    case Ask(_, scope) => MayExactly(s, t, scope);
    case Wake(_) => MayExactly(s, t, s.asked[t]);
    case _ =>
  }

  /** So a task that is inside, however deep, is let further in at once, whoever waits outside. */
  lemma ReentryIsImmediate(states: seq<State>, actions: seq<Action>, i: nat, t: Task)
    requires Run(states, actions) && Inv(states[0]) && i < |actions|
    requires actions[i] == Ask(t, Shared) && OpenScopes(states[i], t) != []
    ensures t !in states[i + 1].asked && OpenScopes(states[i + 1], t) == OpenScopes(states[i], t) + [Shared]
  {
    GrantedExactly(states, actions, i);
  }

  /** A request that is welcome is awake: at its next turn it is granted. */
  lemma WelcomeIsAwake(states: seq<State>, actions: seq<Action>, i: nat, t: Task)
    requires Run(states, actions) && Inv(states[0]) && i < |states|
    requires t in states[i].asked && Welcome(states[i], t, states[i].asked[t])
    ensures Enabled(states[i], Wake(t))
  {
    hide Welcome;
    RunKeeps(states, actions, i);
    MayExactly(states[i], t, states[i].asked[t]);
  }

  /** The tasks inside the gate, apart from the one that owns it. */
  function Others(s: State): set<Task> {
    if s.owner.Some? then s.holders.Keys - {s.owner.value} else s.holders.Keys
  }

  lemma OthersStep(s: State, a: Action)
    requires Inv(s) && Enabled(s, a) && After(s, a).waiting > 0 && s.waiting > 0
    ensures Others(After(s, a)) <= Others(s)
  {
    hide CountsAgree, OwnerAgrees, SharedScopes, WaitingAgrees, NobodySleepsOnAnOpenGate, Inv;
    assert Alone(s) by {
      AloneIn(s);
    }
    if a.Leave? {
      LeavingHolds(s, a.task);
    }
  }

  lemma AloneIn(s: State)
    requires Inv(s)
    ensures Alone(s)
  {
  }

  /** A task that leaves the exclusive scope holds nothing shared. */
  lemma LeavingHolds(s: State, t: Task)
    requires Inv(s) && OpenScopes(s, t) != []
    ensures OpenScopes(s, t)[|OpenScopes(s, t)| - 1].Exclusive? ==> t !in s.holders && s.owner == Some(t)
  {
    var scopes := OpenScopes(s, t);
    assert Held(s, t) == SharedScopes(scopes);
    assert scopes[|scopes| - 1].Exclusive? ==> |scopes| == 1 && SharedScopes(scopes[..0]) == 0;
  }

  /** While an exclusive request waits, nobody new comes in: the other holders only become fewer. */
  lemma {:induction false} OthersOnlyLeave(states: seq<State>, actions: seq<Action>, i: nat, j: nat)
    requires Run(states, actions) && Inv(states[0]) && i <= j < |states|
    requires forall k: nat {:trigger states[k]} | i <= k <= j :: states[k].waiting > 0
    ensures Others(states[j]) <= Others(states[i])
  {
    hide Inv, After, Enabled, Others;
    if i < j {
      OthersOnlyLeave(states, actions, i, j - 1);
      RunKeeps(states, actions, j - 1);
      assert states[j].waiting > 0 && states[j - 1].waiting > 0;
      OthersStep(states[j - 1], actions[j - 1]);
    }
  }

  /** Once the gate is empty, every exclusive request is awake and would be granted when it runs. */
  lemma EmptyGateWakes(states: seq<State>, actions: seq<Action>, i: nat)
    requires Run(states, actions) && Inv(states[0]) && i < |states|
    requires states[i].holders == map[] && states[i].owner.None? && states[i].waiting > 0
    ensures exists t ::
      t in Blocked(states[i]) && Enabled(states[i], Wake(t)) && After(states[i], Wake(t)).owner == Some(t)
  {
    RunKeeps(states, actions, i);
    var s := states[i];
    assert Blocked(s) != {};
    var t :| t in Blocked(s);
    assert t !in s.parked;
    assert Enabled(s, Wake(t)) && After(s, Wake(t)).owner == Some(t);
  }

  /** The request of a task that is itself inside the gate. */
  predicate WaitsForItself(s: State, t: Task) {
    t in s.asked && s.asked[t].Exclusive? && OpenScopes(s, t) != []
  }

  lemma WaitsForItselfStep(s: State, a: Action, t: Task)
    requires Inv(s) && Enabled(s, a) && WaitsForItself(s, t) && a != Cancel(t)
    ensures WaitsForItself(After(s, a), t) && OpenScopes(After(s, a), t) == OpenScopes(s, t)
  {
    var scopes := OpenScopes(s, t);
    if s.holders == map[] && s.owner.None? {
      EmptyMeansNone(s, t);
    }
  }

  lemma WaitsForItselfCounts(s: State, t: Task)
    requires Inv(s) && WaitsForItself(s, t)
    ensures s.waiting > 0
  {
    assert t in Blocked(s);
  }

  /**
   A task that asks for the gate to itself while it is already inside waits until it is cancelled,
   and lets no new task in meanwhile.
   */
  lemma {:induction false} UpgradeNeverGranted(states: seq<State>, actions: seq<Action>, i: nat, j: nat, t: Task)
    requires Run(states, actions) && Inv(states[0]) && i <= j < |states|
    requires WaitsForItself(states[i], t)
    requires forall k: nat | i <= k < j :: actions[k] != Cancel(t)
    ensures WaitsForItself(states[j], t) && states[j].waiting > 0
    ensures Others(states[j]) <= Others(states[i])
  {
    hide Inv, After, Enabled, Others, WaitsForItself;
    RunKeeps(states, actions, j);
    if i < j {
      UpgradeNeverGranted(states, actions, i, j - 1, t);
      RunKeeps(states, actions, j - 1);
      WaitsForItselfStep(states[j - 1], actions[j - 1], t);
      WaitsForItselfCounts(states[j], t);
      OthersStep(states[j - 1], actions[j - 1]);
    } else {
      WaitsForItselfCounts(states[j], t);
    }
  }

  // ----- The gate as the program keeps it -----

  class Gate {
    var holders: map<Task, nat>
    var owner: Option<Task>
    var waiting: nat
    ghost var open: map<Task, seq<Scope>>
    ghost var asked: map<Task, Scope>
    ghost var parked: set<Task>

    ghost function Now(): State
      reads this
    {
      State(holders, owner, waiting, open, asked, parked)
    }

    constructor ()
      ensures Now() == Start() && Inv(Now())
    {
      holders, owner, waiting := map[], None, 0;
      open, asked, parked := map[], map[], {};
    }

    /** One turn of `wait_for` in `shared`, the first or a later one. */
    method EnterShared(task: Task, first: bool) returns (entered: bool)
      requires Inv(Now()) && Enabled(Now(), if first then Ask(task, Shared) else Wake(task))
      requires !first ==> asked[task].Shared?
      modifies this
      ensures Inv(Now()) && Now() == After(old(Now()), if first then Ask(task, Shared) else Wake(task))
      ensures entered <==> task !in asked
      ensures entered ==> owner == old(owner) && Held(Now(), task) == Held(old(Now()), task) + 1
    {
      hide Inv, SharedScopes;
      ghost var before := Now();
      StepKeeps(before, if first then Ask(task, Shared) else Wake(task));
      asked := asked[task := Shared];
      ghost var registered := Now();
      entered := owner == Some(task) || task in holders || (owner.None? && waiting == 0);
      if entered {
        holders := holders[task := (if task in holders then holders[task] else 0) + 1];
        open := open[task := OpenScopes(before, task) + [Shared]];
        asked, parked := asked - {task}, parked - {task};
      } else {
        parked := parked + {task};
      }
      assert first ==> registered == Register(before, task, Shared);
      assert !first ==> registered == before;
      assert Now() == Attempt(registered, task);
    }

    /** The end of a `shared` scope. */
    method LeaveShared(task: Task)
      requires Inv(Now()) && Enabled(Now(), Leave(task))
        && OpenScopes(Now(), task)[|OpenScopes(Now(), task)| - 1].Shared?
      modifies this
      ensures Inv(Now()) && Now() == After(old(Now()), Leave(task))
      ensures Held(Now(), task) == Held(old(Now()), task) - 1 && owner == old(owner)
    {
      hide Inv, SharedScopes;
      ghost var before := Now();
      ghost var scopes := OpenScopes(before, task);
      StepKeeps(before, Leave(task));
      SharedMeansHeld(before, task);
      if holders[task] == 1 {
        holders := holders - {task};
      } else {
        holders := holders[task := holders[task] - 1];
      }
      open, parked := open[task := scopes[..|scopes| - 1]], {};
    }

    /** One turn of `wait_for` in `exclusive`, the first or a later one. */
    method EnterExclusive(task: Task, first: bool) returns (entered: bool)
      requires Inv(Now()) && Enabled(Now(), if first then Ask(task, Exclusive) else Wake(task))
      requires !first ==> asked[task].Exclusive?
      modifies this
      ensures Inv(Now()) && Now() == After(old(Now()), if first then Ask(task, Exclusive) else Wake(task))
      ensures entered <==> task !in asked
      ensures entered ==> owner == Some(task) && holders == map[]
    {
      hide Inv, SharedScopes;
      ghost var before := Now();
      StepKeeps(before, if first then Ask(task, Exclusive) else Wake(task));
      if first {
        waiting := waiting + 1;
        asked := asked[task := Exclusive];
        RegisterKeeps(before, task, Exclusive);
      }
      ghost var registered := Now();
      WithdrawKeeps(registered, task);
      entered := holders == map[] && owner.None?;
      if entered {
        owner := Some(task);
        waiting := waiting - 1;
        open := open[task := OpenScopes(before, task) + [Exclusive]];
        asked, parked := asked - {task}, {};
      } else {
        parked := parked + {task};
      }
      assert first ==> registered == Register(before, task, Exclusive);
      assert Now() == Attempt(registered, task);
    }

    /** The end of an `exclusive` scope. */
    method LeaveExclusive(task: Task)
      requires Inv(Now()) && Enabled(Now(), Leave(task))
        && OpenScopes(Now(), task)[|OpenScopes(Now(), task)| - 1].Exclusive?
      modifies this
      ensures Inv(Now()) && Now() == After(old(Now()), Leave(task))
      ensures owner.None? && holders == map[]
    {
      ghost var scopes := OpenScopes(Now(), task);
      StepKeeps(Now(), Leave(task));
      assert |scopes| == 1 && scopes[..0] == [];
      assert SharedScopes(scopes) == 0 && task !in holders;
      assert holders.Keys == {};
      owner := None;
      open, parked := open[task := scopes[..|scopes| - 1]], {};
    }

    /** A request that is cancelled while it waits. */
    method Abandon(task: Task, scope: Scope)
      requires Inv(Now()) && Enabled(Now(), Cancel(task)) && asked[task] == scope
      modifies this
      ensures Inv(Now()) && Now() == After(old(Now()), Cancel(task))
      ensures holders == old(holders) && owner == old(owner)
    {
      hide Inv, SharedScopes;
      StepKeeps(Now(), Cancel(task));
      WithdrawKeeps(Now(), task);
      if scope.Exclusive? {
        waiting := waiting - 1;
        asked, parked := asked - {task}, {};
      } else {
        asked, parked := asked - {task}, parked - {task};
      }
    }
  }
}
