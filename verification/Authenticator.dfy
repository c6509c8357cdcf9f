/**
 Bearer keys, checked against a snapshot of the key records that expires and is reloaded, with a
 cache of successful checks. Requests, slow verifications, reloads and the clock interleave: one
 action is what one task does between two awaits. Taking the records a load returned and reading
 their generation and expiry is one action.
 */
module Authenticator {
  import opened Results

  type Task = nat

  datatype Record = Record(keyId: string, hash: string, scopes: set<string>, revoked: bool)

  datatype Principal = Principal(keyId: string, scopes: set<string>)

  datatype Verified = Verified(principal: Principal, expiresAt: int)

  /** How a credential splits into key id and secret, and the slow check of a secret. */
  datatype Scheme = Scheme(split: string -> Option<(string, string)>, verify: (string, string) -> bool, ttl: int)

  datatype Answer = Granted(principal: Principal) | Refused | Unavailable

  /** `since` is the generation in force when the request came. */
  datatype Request =
    | Waiting(credential: string, since: nat, tries: nat, load: nat)
    | Verifying(credential: string, since: nat, tries: nat, record: Record, secret: string, generation: nat, until: int)
    | Answered(credential: string, since: nat, tries: nat, answer: Answer, decidedBy: nat)

  datatype Load = Running | Loaded | Broken

  /** Every key set that was ever in force, and until when. */
  datatype Snapshot = Snapshot(records: map<string, Record>, expiresAt: int)

  datatype State = State(
    records: map<string, Record>,
    expireAt: int,
    generation: nat,
    verified: map<string, Verified>,
    loading: Option<nat>,
    now: int,
    loads: seq<Load>,
    requests: map<Task, Request>,
    history: seq<Snapshot>)

  datatype Action =
    | Arrive(task: Task, credential: string)
    | Resume(task: Task)
    | Return(task: Task)
    | Finish(load: nat, keys: Option<seq<Record>>)
    | Tick(now: int)
    | Drop(task: Task)

  /** What verifying a credential against one snapshot gives. */
  function Decide(m: Scheme, records: map<string, Record>, credential: string): Option<Principal> {
    match m.split(credential)
    case None => None
    case Some((key, secret)) =>
      if key in records && !records[key].revoked && m.verify(records[key].hash, secret)
      then Some(Principal(records[key].keyId, records[key].scopes)) else None
  }

  function Indexed(keys: seq<Record>): map<string, Record> {
    if keys == [] then map[]
    else Indexed(keys[..|keys| - 1])[keys[|keys| - 1].keyId := keys[|keys| - 1]]
  }

  predicate Enabled(s: State, a: Action) {
    match a
    case Arrive(t, c) => t !in s.requests
    case Resume(t) => t in s.requests && s.requests[t].Waiting? && s.requests[t].load < |s.loads|
      && !s.loads[s.requests[t].load].Running?
    case Return(t) => t in s.requests && s.requests[t].Verifying?
    case Finish(l, keys) => l < |s.loads| && s.loads[l].Running?
    case Tick(now) => s.now <= now
    case Drop(t) => t in s.requests
  }

  function Answering(s: State, t: Task, credential: string, since: nat, tries: nat, answer: Answer,
                     decidedBy: nat): State {
    s.(requests := s.requests[t := Answered(credential, since, tries, answer, decidedBy)])
  }

  /** The decision on the records in force, up to the slow verification. */
  function Examine(m: Scheme, s: State, t: Task, credential: string, since: nat, tries: nat): State {
    match m.split(credential)
    case None => Answering(s, t, credential, since, tries, Refused, s.generation)
    case Some((key, secret)) =>
      if key !in s.records || s.records[key].revoked
        then Answering(s, t, credential, since, tries, Refused, s.generation)
      else s.(requests := s.requests[t :=
        Verifying(credential, since, tries + 1, s.records[key], secret, s.generation, s.expireAt)])
  }

  /** A request without a usable snapshot waits for the load under way, or starts one if there is none. */
  function Join(s: State, t: Task, credential: string, since: nat, tries: nat): State {
    match s.loading
    case Some(l) => s.(requests := s.requests[t := Waiting(credential, since, tries, l)])
    case None => s.(loading := Some(|s.loads|), loads := s.loads + [Running],
                    requests := s.requests[t := Waiting(credential, since, tries, |s.loads|)])
  }

  function Consult(m: Scheme, s: State, t: Task, credential: string, since: nat, tries: nat): State {
    if s.expireAt > s.now then Examine(m, s, t, credential, since, tries) else Join(s, t, credential, since, tries)
  }

  function After(m: Scheme, s: State, a: Action): State
    requires Enabled(s, a)
  {
    match a
    case Arrive(t, c) =>
      if m.split(c).None? then Answering(s, t, c, s.generation, 0, Refused, s.generation)
      else if c in s.verified && s.verified[c].expiresAt > s.now then
        Answering(s, t, c, s.generation, 0, Granted(s.verified[c].principal), s.generation)
      else Consult(m, s, t, c, s.generation, 0)
    case Resume(t) =>
      var q := s.requests[t];
      if s.loads[q.load].Broken? then Answering(s, t, q.credential, q.since, q.tries, Unavailable, s.generation)
      else Examine(m, s, t, q.credential, q.since, q.tries)
    case Return(t) =>
      var q := s.requests[t];
      if !m.verify(q.record.hash, q.secret) then Answering(s, t, q.credential, q.since, q.tries, Refused, q.generation)
      else if q.generation != s.generation then Consult(m, s, t, q.credential, q.since, q.tries)
      else
        var p := Principal(q.record.keyId, q.record.scopes);
        Answering(s, t, q.credential, q.since, q.tries, Granted(p), q.generation)
        .(verified := s.verified[q.credential := Verified(p, q.until)])
    case Finish(l, None) => s.(loading := None, loads := s.loads[l := Broken])
    case Finish(l, Some(keys)) =>
      s.(records := Indexed(keys), expireAt := s.now + m.ttl, generation := s.generation + 1, verified := map[],
         loading := None, loads := s.loads[l := Loaded], history :=
           s.history + [Snapshot(Indexed(keys), s.now + m.ttl)])
    case Tick(now) => s.(now := now)
    case Drop(t) => s.(requests := s.requests - {t})
  }

  // ----- What holds between any two steps -----

  predicate InForce(s: State) {
    |s.history| == s.generation + 1 && s.history[s.generation] == Snapshot(s.records, s.expireAt)
  }

  /** Every cached principal is what verifying against the snapshot in force gives, and lasts as long. */
  predicate CacheAgrees(m: Scheme, s: State) {
    forall c | c in s.verified :: Decide(m, s.records, c) == Some(s.verified[c].principal)
      && s.verified[c].expiresAt == s.expireAt
  }

  /** At most one load runs, and `loading` names it. */
  predicate OneLoad(s: State) {
    forall l | 0 <= l < |s.loads| :: s.loads[l].Running? <==> s.loading == Some(l)
  }

  predicate LoadKnown(s: State) {
    s.loading.Some? ==> s.loading.value < |s.loads|
  }

  predicate Backed(m: Scheme, history: seq<Snapshot>, q: Request) {
    match q
    case Waiting(c, since, tries, l) => since + tries < |history| && m.split(c).Some?
    case Verifying(c, since, tries, record, secret, generation, until) =>
      && since <= generation < |history|
      && tries <= generation - since + 1
      && m.split(c).Some?
      && (var key := m.split(c).value.0;
          && m.split(c).value.1 == secret
          && key in history[generation].records
          && history[generation].records[key] == record
          && !record.revoked
          && until == history[generation].expiresAt)
    case Answered(c, since, tries, answer, at) =>
      && since <= at < |history|
      && tries <= |history| - since
      && (answer.Granted? ==> Decide(m, history[at].records, c) == Some(answer.principal))
      && (answer.Refused? ==> Decide(m, history[at].records, c) == None)
  }

  predicate RequestsBacked(m: Scheme, s: State) {
    forall t | t in s.requests :: Backed(m, s.history, s.requests[t]) &&
      (s.requests[t].Waiting? ==> s.requests[t].load < |s.loads|)
  }

  predicate Inv(m: Scheme, s: State) {
    && InForce(s)
    && CacheAgrees(m, s)
    && OneLoad(s)
    && LoadKnown(s)
    && RequestsBacked(m, s)
  }

  /** A request that a task has just brought to the state `q`. */
  lemma Moved(m: Scheme, s: State, r: State, t: Task, q: Request)
    requires RequestsBacked(m, s) && r.requests == s.requests[t := q] && r.history == s.history
    requires |s.loads| <= |r.loads|
    requires Backed(m, s.history, q) && (q.Waiting? ==> q.load < |r.loads|)
    ensures RequestsBacked(m, r)
  {
    hide Backed;
  }

  lemma ExamineKeeps(m: Scheme, s: State, t: Task, c: string, since: nat, tries: nat)
    requires Inv(m, s) && since <= s.generation && tries <= s.generation - since && m.split(c).Some?
    ensures Inv(m, Examine(m, s, t, c, since, tries))
  {
    var r := Examine(m, s, t, c, since, tries);
    Moved(m, s, r, t, r.requests[t]);
  }

  lemma ConsultKeeps(m: Scheme, s: State, t: Task, c: string, since: nat, tries: nat)
    requires Inv(m, s) && since <= s.generation && tries <= s.generation - since && m.split(c).Some?
    ensures Inv(m, Consult(m, s, t, c, since, tries))
  {
    hide RequestsBacked;
    if s.expireAt > s.now {
      ExamineKeeps(m, s, t, c, since, tries);
    } else {
      var r := Consult(m, s, t, c, since, tries);
      Moved(m, s, r, t, r.requests[t]);
    }
  }

  lemma GrantKeeps(m: Scheme, s: State, t: Task)
    requires Inv(m, s) && Enabled(s, Return(t))
    ensures Inv(m, After(m, s, Return(t)))
  {
    var q, r := s.requests[t], After(m, s, Return(t));
    if m.verify(q.record.hash, q.secret) && q.generation != s.generation {
      ConsultKeeps(m, s, t, q.credential, q.since, q.tries);
    } else {
      Moved(m, s, r, t, r.requests[t]);
    }
  }

  lemma FinishKeeps(m: Scheme, s: State, l: nat, keys: Option<seq<Record>>)
    requires Inv(m, s) && Enabled(s, Finish(l, keys))
    ensures Inv(m, After(m, s, Finish(l, keys)))
  {
    var r := After(m, s, Finish(l, keys));
    forall t | t in r.requests ensures Backed(m, r.history, r.requests[t]) {
      assert Backed(m, s.history, s.requests[t]);
    }
  }

  lemma ResumeKeeps(m: Scheme, s: State, t: Task)
    requires Inv(m, s) && Enabled(s, Resume(t))
    ensures Inv(m, After(m, s, Resume(t)))
  {
    var q, r := s.requests[t], After(m, s, Resume(t));
    if s.loads[q.load].Broken? {
      Moved(m, s, r, t, r.requests[t]);
    } else {
      ExamineKeeps(m, s, t, q.credential, q.since, q.tries);
    }
  }

  lemma ArriveKeeps(m: Scheme, s: State, t: Task, c: string)
    requires Inv(m, s) && Enabled(s, Arrive(t, c))
    ensures Inv(m, After(m, s, Arrive(t, c)))
  {
    var r := After(m, s, Arrive(t, c));
    if m.split(c).Some? && !(c in s.verified && s.verified[c].expiresAt > s.now) {
      ConsultKeeps(m, s, t, c, s.generation, 0);
    } else {
      Moved(m, s, r, t, r.requests[t]);
    }
  }

  /** Every step keeps the invariant. */
  lemma StepKeeps(m: Scheme, s: State, a: Action)
    requires Inv(m, s) && Enabled(s, a)
    ensures Inv(m, After(m, s, a))
  {
    match a
    case Arrive(t, c) => ArriveKeeps(m, s, t, c);
    case Resume(t) => ResumeKeeps(m, s, t);
    case Return(t) => GrantKeeps(m, s, t);
    case Finish(l, keys) => FinishKeeps(m, s, l, keys);
    case Tick(now) =>
    case Drop(t) =>
  }

  lemma CacheEntry(m: Scheme, s: State, c: string)
    requires Inv(m, s) && c in s.verified
    ensures Decide(m, s.records, c) == Some(s.verified[c].principal) && s.verified[c].expiresAt == s.expireAt
  {
  }

  // ----- Runs: any interleaving of requests, verifications, reloads and the clock -----

  function Start(now: int): State {
    State(map[], 0, 0, map[], None, now, [], map[], [Snapshot(map[], 0)])
  }

  ghost predicate Run(m: Scheme, states: seq<State>, actions: seq<Action>) {
    && |states| == |actions| + 1
    && forall i: nat | i < |actions| ::
      Enabled(states[i], actions[i]) && states[i + 1] == After(m, states[i], actions[i])
  }

  lemma {:induction false} RunKeeps(m: Scheme, states: seq<State>, actions: seq<Action>, i: nat)
    requires Run(m, states, actions) && Inv(m, states[0]) && i < |states|
    ensures Inv(m, states[i])
  {
    hide Inv, After, Enabled;
    if i > 0 {
      RunKeeps(m, states, actions, i - 1);
      StepKeeps(m, states[i - 1], actions[i - 1]);
    }
  }

  /** The cache is coherent at every moment, and the store is never asked twice at once. */
  lemma CacheIsCoherent(m: Scheme, states: seq<State>, actions: seq<Action>, now: int, i: nat, c: string, k: nat,
                        l: nat)
    requires Run(m, states, actions) && states[0] == Start(now) && i < |states|
    ensures c in states[i].verified ==>
      && Decide(m, states[i].records, c) == Some(states[i].verified[c].principal)
      && states[i].verified[c].expiresAt == states[i].expireAt
    ensures k < |states[i].loads| && l < |states[i].loads| && states[i].loads[k].Running? && states[i].loads[l].Running?
      ==> k == l
  {
    RunKeeps(m, states, actions, i);
  }

  predicate NewlyAnswered(s: State, r: State, t: Task) {
    t in r.requests && r.requests[t].Answered? && (t !in s.requests || !s.requests[t].Answered?)
  }

  lemma GrantStep(m: Scheme, s: State, a: Action, t: Task)
    requires Inv(m, s) && Enabled(s, a)
    requires NewlyAnswered(s, After(m, s, a), t) && After(m, s, a).requests[t].answer.Granted?
    ensures var q := After(m, s, a).requests[t];
      && Decide(m, s.records, q.credential) == Some(q.answer.principal)
      && q.decidedBy == s.generation && a in {Arrive(t, q.credential), Return(t)}
      && (a == Arrive(t, q.credential) ==> s.now < s.expireAt)
      && (a != Arrive(t, q.credential) ==>
        t in s.requests && s.requests[t].Verifying? && s.requests[t].generation == s.generation)
  {
    hide Examine, Join, Inv, Decide;
    match a
    case Arrive(u, c) =>
      ConsultUndecided(m, s, u, c, s.generation, 0);
      if c in s.verified {
        CacheEntry(m, s, c);
      }
    case Resume(u) =>
      var q := s.requests[u];
      ConsultUndecided(m, s, u, q.credential, q.since, q.tries);
    case Return(u) =>
      var q := s.requests[u];
      ConsultUndecided(m, s, u, q.credential, q.since, q.tries);
      VerifyingDecides(m, s, u);
    case Finish(l, keys) =>
    case Tick(now) =>
    case Drop(u) =>
  }

  /** Looking at the records grants nothing by itself, and concerns no other request. */
  lemma ConsultUndecided(m: Scheme, s: State, t: Task, c: string, since: nat, tries: nat)
    ensures var r := Examine(m, s, t, c, since, tries);
      r.requests.Keys == s.requests.Keys + {t} && (r.requests[t].Answered? ==> r.requests[t].answer.Refused?) &&
      forall u | u in s.requests && u != t :: r.requests[u] == s.requests[u]
    ensures var r := Join(s, t, c, since, tries);
      r.requests.Keys == s.requests.Keys + {t} && r.requests[t].Waiting? &&
      forall u | u in s.requests && u != t :: r.requests[u] == s.requests[u]
  {
  }

  lemma VerifyingDecides(m: Scheme, s: State, t: Task)
    requires Inv(m, s) && t in s.requests && s.requests[t].Verifying?
    ensures var q := s.requests[t];
      m.verify(q.record.hash, q.secret) && q.generation == s.generation ==>
        Decide(m, s.records, q.credential) == Some(Principal(q.record.keyId, q.record.scopes))
  {
    assert Backed(m, s.history, s.requests[t]);
  }

  lemma HistoryStep(m: Scheme, s: State, a: Action)
    requires Enabled(s, a)
    ensures s.history <= After(m, s, a).history && s.now <= After(m, s, a).now
  {
  }

  /**
   A principal is granted only when the snapshot then in force gives it, from the cache only before
   that snapshot expires, and otherwise after a verification that no reload overtook.
   */
  lemma GrantsAreCurrent(m: Scheme, states: seq<State>, actions: seq<Action>, now: int, i: nat, t: Task)
    requires Run(m, states, actions) && states[0] == Start(now) && i < |actions|
    requires NewlyAnswered(states[i], states[i + 1], t) && states[i + 1].requests[t].answer.Granted?
    ensures var s, q := states[i], states[i + 1].requests[t];
      && Decide(m, s.records, q.credential) == Some(q.answer.principal)
      && (actions[i] == Arrive(t, q.credential) ==> s.now < s.expireAt)
      && (actions[i] != Arrive(t, q.credential) ==>
        t in s.requests && s.requests[t].Verifying? && s.requests[t].generation == s.generation)
  {
    hide After, Decide;
    RunKeeps(m, states, actions, i);
    assert Enabled(states[i], actions[i]);
    GrantStep(m, states[i], actions[i], t);
  }

  /**
   Every answer is what one snapshot, in force while the request was under way, gives; and a
   credential is verified at most once for each snapshot that was then in force.
   */
  lemma AnswersAreJustified(m: Scheme, states: seq<State>, actions: seq<Action>, now: int, i: nat, t: Task)
    requires Run(m, states, actions) && states[0] == Start(now) && i < |states|
    requires t in states[i].requests && states[i].requests[t].Answered?
    ensures var s, q := states[i], states[i].requests[t];
      && q.since <= q.decidedBy <= s.generation < |s.history|
      && q.tries <= s.generation - q.since + 1
      && (q.answer.Granted? ==> Decide(m, s.history[q.decidedBy].records, q.credential) == Some(q.answer.principal))
      && (q.answer.Refused? ==> Decide(m, s.history[q.decidedBy].records, q.credential) == None)
  {
    RunKeeps(m, states, actions, i);
    assert Backed(m, states[i].history, states[i].requests[t]);
  }

  /** What was in force stays on record: history only grows, by one snapshot for each load that ends well. */
  lemma {:induction false} HistoryGrows(m: Scheme, states: seq<State>, actions: seq<Action>, i: nat, j: nat)
    requires Run(m, states, actions) && i <= j < |states|
    ensures states[i].history <= states[j].history && states[i].now <= states[j].now
  {
    hide After, Enabled;
    if i < j {
      HistoryGrows(m, states, actions, i, j - 1);
      HistoryStep(m, states[j - 1], actions[j - 1]);
    }
  }

  /**
   A principal is granted when its snapshot has expired already if and only if its verification
   returned, and took until then; the cache never does it.
   */
  lemma LateGrantsExactly(m: Scheme, states: seq<State>, actions: seq<Action>, now: int, i: nat, t: Task)
    requires Run(m, states, actions) && states[0] == Start(now) && i < |actions|
    requires NewlyAnswered(states[i], states[i + 1], t) && states[i + 1].requests[t].answer.Granted?
    ensures var s, q := states[i], states[i + 1].requests[t];
      && q.decidedBy < |s.history|
      && (s.history[q.decidedBy].expiresAt <= s.now <==>
            actions[i] == Return(t) && t in s.requests && s.requests[t].Verifying? && s.requests[t].until <= s.now)
  {
    hide After, Decide;
    RunKeeps(m, states, actions, i);
    assert Enabled(states[i], actions[i]);
    GrantStep(m, states[i], actions[i], t);
    if actions[i] == Return(t) {
      assert Backed(m, states[i].history, states[i].requests[t]);
    }
  }

  /**
   The bound of the cache does not bound a verification under way: with every scheme and every
   record there is a run that grants a principal after its snapshot expired.
   */
  lemma SlowVerificationOutlivesItsSnapshot(m: Scheme, c: string, record: Record)
    requires m.split(c).Some? && m.split(c).value.0 == record.keyId && !record.revoked
    requires m.verify(record.hash, m.split(c).value.1) && m.ttl > 0
    ensures exists states: seq<State>, actions: seq<Action> ::
      && Run(m, states, actions) && states[0] == Start(1)
      && var last := states[|states| - 1];
         && last.now >= last.expireAt
         && 0 in last.requests && last.requests[0] ==
           Answered(c, 0, 1, Granted(Principal(record.keyId, record.scopes)), 1)
  {
    var late := 1 + m.ttl;
    var s0 := Start(1);
    var s1 := After(m, s0, Arrive(0, c));
    var s2 := After(m, s1, Finish(0, Some([record])));
    assert [record][..0] == [] && Indexed([record]) == map[record.keyId := record];
    assert s2.requests == map[0 := Waiting(c, 0, 0, 0)] && s2.loads == [Loaded];
    SlowRun(m, s2, c, record);
    var s3 := After(m, s2, Resume(0));
    var s4 := After(m, s3, Tick(late));
    var s5 := After(m, s4, Return(0));
    var states, actions := [s0, s1, s2, s3, s4, s5],
      [Arrive(0, c), Finish(0, Some([record])), Resume(0), Tick(late), Return(0)];
    assert Run(m, states, actions);
    assert states[|states| - 1] == s5;
  }

  lemma SlowRun(m: Scheme, s: State, c: string, record: Record)
    requires m.split(c).Some? && m.split(c).value.0 == record.keyId && !record.revoked
    requires m.verify(record.hash, m.split(c).value.1) && m.ttl > 0
    requires s.records == map[record.keyId := record] && s.requests == map[0 := Waiting(c, 0, 0, 0)]
      && s.loads == [Loaded]
    requires s.now == 1 && s.expireAt == 1 + m.ttl && s.generation == 1
    ensures Enabled(s, Resume(0))
    ensures var r := After(m, s, Resume(0));
      Enabled(r, Tick(1 + m.ttl)) && Enabled(After(m, r, Tick(1 + m.ttl)), Return(0))
    ensures var last := After(m, After(m, After(m, s, Resume(0)), Tick(1 + m.ttl)), Return(0));
      && last.now >= last.expireAt
      && last.requests == map[0 := Answered(c, 0, 1, Granted(Principal(record.keyId, record.scopes)), 1)]
  {
  }

  // ----- What loads bring, and how long it is kept -----

  /** Under each key id stands the last record that has it. */
  ghost predicate KeyedByLast(keys: seq<Record>, records: map<string, Record>) {
    && (forall r | r in keys :: r.keyId in records)
    && forall k | k in records :: exists i :: LastWith(i, keys, k, records[k])
  }

  predicate LastWith(i: int, keys: seq<Record>, k: string, r: Record) {
    0 <= i < |keys| && keys[i] == r && r.keyId == k && forall j | i < j < |keys| :: keys[j].keyId != k
  }

  lemma {:induction false} IndexedByLast(keys: seq<Record>)
    ensures KeyedByLast(keys, Indexed(keys))
  {
    if keys != [] {
      var before, last := keys[..|keys| - 1], keys[|keys| - 1];
      assert keys == before + [last];
      IndexedByLast(before);
      forall k | k in Indexed(keys) ensures exists i :: LastWith(i, keys, k, Indexed(keys)[k]) {
        if k == last.keyId {
          assert LastWith(|before|, keys, k, last);
        } else {
          var i :| LastWith(i, before, k, Indexed(before)[k]);
          assert LastWith(i, keys, k, Indexed(keys)[k]);
        }
      }
    }
  }

  /** Action `j` is the end of a load that brought these records, to last for `ttl` from then on. */
  ghost predicate BroughtBy(m: Scheme, s: State, a: Action, snapshot: Snapshot) {
    && a.Finish? && a.keys.Some?
    && KeyedByLast(a.keys.value, snapshot.records) && snapshot.expiresAt == s.now + m.ttl
  }

  /**
   Over every run each snapshot, but the empty one there was first, is what one load brought: its
   records are those of that load, and it expires `ttl` after the load ended.
   */
  lemma {:induction false} SnapshotsAreLoads(m: Scheme, states: seq<State>, actions: seq<Action>, now: int, i: nat,
                                             g: nat) returns (j: nat)
    requires Run(m, states, actions) && states[0] == Start(now) && i < |states| && 0 < g < |states[i].history|
    ensures j < i && |states[j].history| == g && BroughtBy(m, states[j], actions[j], states[i].history[g])
  {
    hide Examine, Join, Consult, KeyedByLast;
    assert i > 0;
    var s, a := states[i - 1], actions[i - 1];
    HistoryStep(m, s, a);
    if g < |s.history| {
      j := SnapshotsAreLoads(m, states, actions, now, i - 1, g);
    } else {
      LoadBrings(m, s, a);
      j := i - 1;
    }
  }

  lemma LoadBrings(m: Scheme, s: State, a: Action)
    requires Enabled(s, a) && After(m, s, a).history != s.history
    ensures |After(m, s, a).history| == |s.history| + 1
    ensures BroughtBy(m, s, a, After(m, s, a).history[|s.history|])
  {
    if a.Finish? && a.keys.Some? {
      IndexedByLast(a.keys.value);
    }
  }

  /** A load is started only when the snapshot in force has expired and none is under way. */
  lemma LoadsAreNeeded(m: Scheme, states: seq<State>, actions: seq<Action>, i: nat)
    requires Run(m, states, actions) && i < |actions| && |states[i].loads| < |states[i + 1].loads|
    ensures states[i].expireAt <= states[i].now && states[i].loading.None?
    ensures actions[i].Arrive? || actions[i].Return?
  {
  }

  /** A request for what is cached is answered at once, without a verification, while the snapshot stands. */
  lemma CachedIsServed(m: Scheme, states: seq<State>, actions: seq<Action>, now: int, i: nat, t: Task, c: string)
    requires Run(m, states, actions) && states[0] == Start(now) && i < |actions|
    requires actions[i] == Arrive(t, c) && c in states[i].verified && states[i].now < states[i].expireAt
    ensures t in states[i + 1].requests
    ensures states[i + 1].requests[t] ==
      Answered(c, states[i].generation, 0, Granted(states[i].verified[c].principal), states[i].generation)
  {
    RunKeeps(m, states, actions, i);
  }

  /** What was granted after a verification is cached from then on, until the next snapshot. */
  lemma {:induction false} KeptUntilReload(m: Scheme, states: seq<State>, actions: seq<Action>, now: int, i: nat,
                                           j: nat, t: Task)
    requires Run(m, states, actions) && states[0] == Start(now) && i < j < |states|
    requires actions[i] == Return(t) && NewlyAnswered(states[i], states[i + 1], t)
    requires states[i + 1].requests[t].answer.Granted? && states[i].generation == states[j].generation
    ensures var q := states[i + 1].requests[t];
      q.credential in states[j].verified && states[j].verified[q.credential].principal == q.answer.principal
    decreases j
  {
    hide Inv, Decide, Examine, Join, Consult, RequestsBacked;
    StartHolds(m, now);
    if j == i + 1 {
      ReturnCaches(m, states[i], t);
    } else {
      GenerationGrows(m, states, actions, i, j - 1);
      GenerationGrows(m, states, actions, j - 1, j);
      KeptUntilReload(m, states, actions, now, i, j - 1, t);
      RunKeeps(m, states, actions, j - 1);
      RunKeeps(m, states, actions, j);
      var c := states[i + 1].requests[t].credential;
      CacheEntry(m, states[j - 1], c);
      StillCached(m, states[j - 1], actions[j - 1], c);
      CacheEntry(m, states[j], c);
    }
  }

  lemma StartHolds(m: Scheme, now: int)
    ensures Inv(m, Start(now))
  {
  }

  lemma ReturnCaches(m: Scheme, s: State, t: Task)
    requires Enabled(s, Return(t)) && NewlyAnswered(s, After(m, s, Return(t)), t)
    requires After(m, s, Return(t)).requests[t].answer.Granted?
    ensures var r := After(m, s, Return(t));
      r.requests[t].credential in r.verified
      && r.verified[r.requests[t].credential].principal == r.requests[t].answer.principal
  {
    var q := s.requests[t];
    ConsultUndecided(m, s, t, q.credential, q.since, q.tries);
  }

  lemma StillCached(m: Scheme, s: State, a: Action, c: string)
    requires Enabled(s, a) && c in s.verified && After(m, s, a).generation == s.generation
    ensures c in After(m, s, a).verified && After(m, s, a).records == s.records
  {
  }

  lemma {:induction false} GenerationGrows(m: Scheme, states: seq<State>, actions: seq<Action>, i: nat, j: nat)
    requires Run(m, states, actions) && i <= j < |states|
    ensures states[i].generation <= states[j].generation
  {
    if i < j {
      GenerationGrows(m, states, actions, i, j - 1);
    }
  }

  /** A request is answered as unavailable exactly when the load it waited for broke. */
  lemma UnavailableExactly(m: Scheme, states: seq<State>, actions: seq<Action>, i: nat, t: Task)
    requires Run(m, states, actions) && i < |actions| && NewlyAnswered(states[i], states[i + 1], t)
    ensures states[i + 1].requests[t].answer.Unavailable? <==>
      actions[i] == Resume(t) && states[i].loads[states[i].requests[t].load].Broken?
  {
    assert Enabled(states[i], actions[i]);
    if actions[i].Return? || actions[i].Resume? {
      var q := states[i].requests[actions[i].task];
      ConsultUndecided(m, states[i], actions[i].task, q.credential, q.since, q.tries);
    }
  }

  // ----- The authenticator as the program keeps it -----

  class ApiKeyAuthenticator {
    const scheme: Scheme
    var records: map<string, Record>
    var expireAt: int
    var generation: nat
    var verified: map<string, Verified>
    var loading: Option<nat>
    /** The clock and the load tasks. */
    var now: int
    var loads: seq<Load>
    /** The local variables of every request under way, and every snapshot there ever was. */
    ghost var requests: map<Task, Request>
    ghost var history: seq<Snapshot>

    ghost function Now(): State
      reads this
    {
      State(records, expireAt, generation, verified, loading, now, loads, requests, history)
    }

    constructor (scheme: Scheme, now: int)
      ensures this.scheme == scheme && Now() == Start(now) && Inv(scheme, Now())
    {
      this.scheme, this.now := scheme, now;
      records, expireAt, generation, verified, loading := map[], 0, 0, map[], None;
      loads, requests, history := [], map[], [Snapshot(map[], 0)];
    }

    /** The decision on the records in force, up to the slow verification. */
    method Look(task: Task, credential: string, ghost since: nat, ghost tries: nat) returns (refused: bool)
      requires InForce(Now()) && scheme.split(credential).Some?
      modifies this
      ensures Now() == Examine(scheme, old(Now()), task, credential, since, tries)
      ensures refused <==> requests[task].Answered?
    {
      var (key, secret) := scheme.split(credential).value;
      refused := key !in records || records[key].revoked;
      if refused {
        requests := requests[task := Answered(credential, since, tries, Refused, generation)];
      } else {
        requests := requests[task := Verifying(credential, since, tries + 1, records[key], secret, generation,
          expireAt)];
      }
    }

    /** The records if they still stand, or else the one load that will bring them. */
    method GetRecords(task: Task, credential: string, ghost since: nat, ghost tries: nat)
      requires Inv(scheme, Now()) && scheme.split(credential).Some?
      modifies this
      ensures Now() == Consult(scheme, old(Now()), task, credential, since, tries)
    {
      if expireAt > now {
        var refused := Look(task, credential, since, tries);
      } else {
        if loading.None? {
          loading, loads := Some(|loads|), loads + [Running];
        }
        requests := requests[task := Waiting(credential, since, tries, loading.value)];
      }
    }

    /** A request arrives: the cache first, then the records. */
    method Authenticate(task: Task, credential: string) returns (principal: Option<Principal>)
      requires Inv(scheme, Now()) && Enabled(Now(), Arrive(task, credential))
      modifies this
      ensures Inv(scheme, Now()) && Now() == After(scheme, old(Now()), Arrive(task, credential))
      ensures principal.Some? ==> Decide(scheme, records, credential) == principal && now < expireAt
    {
      hide Inv, Decide;
      StepKeeps(scheme, Now(), Arrive(task, credential));
      principal := None;
      if scheme.split(credential).None? {
        requests := requests[task := Answered(credential, generation, 0, Refused, generation)];
      } else if credential in verified && verified[credential].expiresAt > now {
        principal := Some(verified[credential].principal);
        CacheEntry(scheme, Now(), credential);
        requests := requests[task := Answered(credential, generation, 0, Granted(principal.value), generation)];
      } else {
        GetRecords(task, credential, generation, 0);
      }
    }

    /** A load this request waited for has ended. */
    method Continue(task: Task, credential: string, load: nat, ghost since: nat, ghost tries: nat)
      returns (unavailable: bool)
      requires Inv(scheme, Now()) && Enabled(Now(), Resume(task))
      requires requests[task] == Waiting(credential, since, tries, load)
      modifies this
      ensures Inv(scheme, Now()) && Now() == After(scheme, old(Now()), Resume(task))
      ensures unavailable <==> loads[load].Broken?
    {
      StepKeeps(scheme, Now(), Resume(task));
      assert Backed(scheme, history, requests[task]);
      unavailable := loads[load].Broken?;
      if unavailable {
        requests := requests[task := Answered(credential, since, tries, Unavailable, generation)];
      } else {
        var refused := Look(task, credential, since, tries);
      }
    }

    /** The slow verification returns: keep the decision only if it still stands. */
    method Decided(task: Task, credential: string, record: Record, secret: string, started: nat, until: int,
                   ghost since: nat, ghost tries: nat) returns (principal: Option<Principal>)
      requires Inv(scheme, Now()) && Enabled(Now(), Return(task))
      requires requests[task] == Verifying(credential, since, tries, record, secret, started, until)
      modifies this
      ensures Inv(scheme, Now()) && Now() == After(scheme, old(Now()), Return(task))
      ensures principal.Some? ==> Decide(scheme, records, credential) == principal && started == generation
    {
      ghost var before := Now();
      StepKeeps(scheme, before, Return(task));
      assert Backed(scheme, history, requests[task]);
      principal := None;
      if !scheme.verify(record.hash, secret) {
        requests := requests[task := Answered(credential, since, tries, Refused, started)];
      } else if started != generation {
        GetRecords(task, credential, since, tries);
      } else {
        principal := Some(Principal(record.keyId, record.scopes));
        verified := verified[credential := Verified(principal.value, until)];
        requests := requests[task := Answered(credential, since, tries, Granted(principal.value), started)];
      }
    }

    /** The store answers a load, or fails to. */
    method ReadKeySet(load: nat, keys: Option<seq<Record>>)
      requires Inv(scheme, Now()) && Enabled(Now(), Finish(load, keys))
      modifies this
      ensures Inv(scheme, Now()) && Now() == After(scheme, old(Now()), Finish(load, keys))
      ensures loading.None? && (keys.Some? ==> verified == map[])
    {
      hide Inv, Backed;
      StepKeeps(scheme, Now(), Finish(load, keys));
      loading := None;
      if keys.None? {
        loads := loads[load := Broken];
        return;
      }
      var index: map<string, Record> := map[];
      for i := 0 to |keys.value|
        invariant index == Indexed(keys.value[..i])
      {
        assert keys.value[..i + 1][..i] == keys.value[..i];
        index := index[keys.value[i].keyId := keys.value[i]];
      }
      assert keys.value[..|keys.value|] == keys.value;
      records, expireAt, generation, verified := index, now + scheme.ttl, generation + 1, map[];
      loads, history := loads[load := Loaded], history + [Snapshot(records, expireAt)];
    }
  }
}
