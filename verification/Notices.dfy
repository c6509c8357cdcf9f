/**
 The reconciler's notices: a revisioned state file, changed by several writers that read it, change
 what they read and write it back against the revision they read, at most five times. Reading the
 file, and checking the revision and replacing the file under the lock, are single steps.
 */
module Notices {
  import opened Results

  type Task = nat

  const ATTEMPTS: nat := 5

  /** An entry of the stored file; anything but a mapping is junk. */
  datatype Entry = Fields(fields: map<string, string>) | Junk

  type Entries = map<string, Entry>

  datatype StateFile = StateFile(revision: nat, entries: Entries)

  const KEYS: set<string> := {"note_id", "title", "from_path", "path", "reason", "at"}

  predicate Readable(e: Entry) {
    e.Fields? && KEYS <= e.fields.Keys
  }

  /** The notices of a file; a file never written has none. */
  function ValidNotices(file: Option<StateFile>): Entries {
    match file
    case None => map[]
    case Some(f) => map id | id in f.entries && Readable(f.entries[id]) :: f.entries[id]
  }

  datatype Change = Record(id: string, notice: Entry) | Clear(id: string)

  predicate WellFormed(c: Change) {
    c.Record? ==> Readable(c.notice)
  }

  function Changed(c: Change, notices: Entries): Entries {
    match c
    case Record(id, notice) => notices[id := notice]
    case Clear(id) => notices - {id}
  }

  /** Whether a change leaves something to write. */
  predicate Needed(c: Change, notices: Entries) {
    c.Record? || c.id in notices
  }

  function Revision(file: Option<StateFile>): Option<nat> {
    match file
    case None => None
    case Some(f) => Some(f.revision)
  }

  /** A write against a revision: refused unless the file still has it. */
  function Write(file: Option<StateFile>, entries: Entries, ifRevision: Option<nat>): Result<StateFile, nat> {
    if file.None? && ifRevision.Some? then Err(0)
    else if file.Some? && ifRevision != Some(file.value.revision) then Err(file.value.revision)
    else Ok(StateFile(if file.None? then 1 else file.value.revision + 1, entries))
  }

  // ----- The writers -----

  datatype Outcome = Written(place: nat) | Unneeded(seen: nat) | Exhausted

  /** `from` and `seen` count the changes that had succeeded when the writer began and when it last read. */
  datatype Writer =
    | Trying(change: Change, from: nat, attempt: nat)
    | Holding(change: Change, from: nat, attempt: nat, seen: nat, revision: Option<nat>, notices: Entries)
    | Done(change: Change, from: nat, outcome: Outcome)

  /** `log` lists the changes that succeeded, in the order of their revisions. */
  datatype State = State(file: Option<StateFile>, log: seq<(Task, Change)>, writers: map<Task, Writer>)

  datatype Action = Begin(task: Task, change: Change) | ReadFile(task: Task) | WriteFile(task: Task)

  predicate Enabled(s: State, a: Action) {
    match a
    case Begin(t, c) => t !in s.writers && WellFormed(c)
    case ReadFile(t) => t in s.writers && s.writers[t].Trying?
    case WriteFile(t) => t in s.writers && s.writers[t].Holding?
  }

  function After(s: State, a: Action): State
    requires Enabled(s, a)
  {
    match a
    case Begin(t, c) => s.(writers := s.writers[t := Trying(c, |s.log|, 0)])
    case ReadFile(t) =>
      var w := s.writers[t];
      var read := ValidNotices(s.file);
      s.(writers := s.writers[t :=
        if Needed(w.change, read) then Holding(w.change, w.from, w.attempt, |s.log|, Revision(s.file), read)
        else Done(w.change, w.from, Unneeded(|s.log|))])
    case WriteFile(t) =>
      var w := s.writers[t];
      match Write(s.file, Changed(w.change, w.notices), w.revision)
      case Ok(f) => State(Some(f), s.log + [(t, w.change)], s.writers[t := Done(w.change, w.from, Written(|s.log|))])
      case Err(current) => s.(writers := s.writers[t :=
        if w.attempt + 1 == ATTEMPTS then Done(w.change, w.from, Exhausted)
          else Trying(w.change, w.from, w.attempt + 1)])
  }

  // ----- The reference: the changes one after another -----

  function Applied(start: Entries, log: seq<(Task, Change)>): Entries {
    if log == [] then start
    else Changed(log[|log| - 1].1, Applied(start, log[..|log| - 1]))
  }

  function RevisionAfter(start: Option<StateFile>, n: nat): Option<nat> {
    match start
    case None => if n == 0 then None else Some(n)
    case Some(f) => Some(f.revision + n)
  }

  predicate FileAgrees(start: Option<StateFile>, s: State) {
    && Revision(s.file) == RevisionAfter(start, |s.log|)
    && ValidNotices(s.file) == Applied(ValidNotices(start), s.log)
  }

  ghost predicate NotIn(t: Task, log: seq<(Task, Change)>) {
    forall e | e in log :: e.0 != t
  }

  ghost predicate OnlyAt(t: Task, place: nat, log: seq<(Task, Change)>) {
    forall i | 0 <= i < |log| :: log[i].0 == t <==> i == place
  }

  ghost predicate WriterAgrees(start: Option<StateFile>, log: seq<(Task, Change)>, t: Task, w: Writer) {
    && WellFormed(w.change)
    && match w
       case Trying(c, from, k) => k < ATTEMPTS && from + k <= |log| && NotIn(t, log)
       case Holding(c, from, k, seen, revision, notices) =>
         && k < ATTEMPTS && from + k <= seen <= |log| && NotIn(t, log)
         && revision == RevisionAfter(start, seen)
         && notices == Applied(ValidNotices(start), log[..seen]) && Needed(c, notices)
       case Done(c, from, Written(place)) =>
         && from <= place < |log| && log[place] == (t, c) && OnlyAt(t, place, log)
         && Needed(c, Applied(ValidNotices(start), log[..place]))
       case Done(c, from, Unneeded(seen)) =>
         from <= seen <= |log| && NotIn(t, log) && !Needed(c, Applied(ValidNotices(start), log[..seen]))
       case Done(c, from, Exhausted) =>
         from + ATTEMPTS <= |log| && NotIn(t, log)
  }

  ghost predicate Inv(start: Option<StateFile>, s: State) {
    && FileAgrees(start, s)
    && (forall t | t in s.writers :: WriterAgrees(start, s.log, t, s.writers[t]))
    && (forall e | e in s.log :: e.0 in s.writers && WellFormed(e.1))
  }

  lemma {:induction false} AppliedReadable(start: Option<StateFile>, log: seq<(Task, Change)>)
    requires forall e | e in log :: WellFormed(e.1)
    ensures forall id | id in Applied(ValidNotices(start), log) :: Readable(Applied(ValidNotices(start), log)[id])
  {
    if log != [] {
      AppliedReadable(start, log[..|log| - 1]);
      assert log[|log| - 1] in log;
    }
  }

  lemma AppliedSnoc(start: Entries, log: seq<(Task, Change)>, e: (Task, Change))
    ensures Applied(start, log + [e]) == Changed(e.1, Applied(start, log))
  {
    assert (log + [e])[..|log + [e]| - 1] == log;
  }

  /** Another writer's success changes nothing a writer relies on. */
  lemma OthersUnmoved(start: Option<StateFile>, log: seq<(Task, Change)>, e: (Task, Change), t: Task, w: Writer)
    requires WriterAgrees(start, log, t, w) && e.0 != t
    ensures WriterAgrees(start, log + [e], t, w)
  {
    var after := log + [e];
    if w.Holding? {
      assert after[..w.seen] == log[..w.seen];
    }
    if w.Done? && w.outcome.Written? {
      assert after[..w.outcome.place] == log[..w.outcome.place];
    }
    if w.Done? && w.outcome.Unneeded? {
      assert after[..w.outcome.seen] == log[..w.outcome.seen];
    }
  }

  /** A write lands exactly when no other write landed since the file was read. */
  lemma LandsExactly(start: Option<StateFile>, s: State, t: Task)
    requires Inv(start, s) && Enabled(s, WriteFile(t))
    ensures Write(s.file, Changed(s.writers[t].change, s.writers[t].notices), s.writers[t].revision).Ok? <==>
      s.writers[t].seen == |s.log|
    ensures s.writers[t].seen == |s.log| ==> s.writers[t].notices == ValidNotices(s.file)
  {
    assert WriterAgrees(start, s.log, t, s.writers[t]);
    assert s.log[..|s.log|] == s.log;
  }

  lemma LandingKeeps(start: Option<StateFile>, s: State, t: Task)
    requires Inv(start, s) && Enabled(s, WriteFile(t)) && s.writers[t].seen == |s.log|
    ensures Inv(start, After(s, WriteFile(t)))
    ensures After(s, WriteFile(t)).log == s.log + [(t, s.writers[t].change)]
  {
    hide WriterAgrees;
    var r, e := After(s, WriteFile(t)), (t, s.writers[t].change);
    LandsExactly(start, s, t);
    LandedFile(start, s, t);
    forall u | u in r.writers ensures WriterAgrees(start, r.log, u, r.writers[u]) {
      if u == t {
        Landed(start, s.log, t, s.writers[t]);
      } else {
        OthersUnmoved(start, s.log, e, u, s.writers[u]);
      }
    }
  }

  lemma Landed(start: Option<StateFile>, log: seq<(Task, Change)>, t: Task, w: Writer)
    requires w.Holding? && w.seen == |log| && WriterAgrees(start, log, t, w)
    ensures WriterAgrees(start, log + [(t, w.change)], t, Done(w.change, w.from, Written(|log|)))
  {
    assert (log + [(t, w.change)])[..|log|] == log == log[..|log|];
  }

  lemma LandedFile(start: Option<StateFile>, s: State, t: Task)
    requires Inv(start, s) && Enabled(s, WriteFile(t)) && s.writers[t].seen == |s.log|
    ensures WellFormed(s.writers[t].change)
    ensures FileAgrees(start, After(s, WriteFile(t)))
      && After(s, WriteFile(t)).log == s.log + [(t, s.writers[t].change)]
  {
    hide Changed, Applied, Readable;
    var w, r := s.writers[t], After(s, WriteFile(t));
    LandsExactly(start, s, t);
    assert WriterAgrees(start, s.log, t, w);
    AppliedSnoc(ValidNotices(start), s.log, (t, w.change));
    AppliedReadable(start, r.log);
  }

  lemma ReadingKeeps(start: Option<StateFile>, s: State, t: Task)
    requires Inv(start, s) && Enabled(s, ReadFile(t))
    ensures Inv(start, After(s, ReadFile(t)))
  {
    assert WriterAgrees(start, s.log, t, s.writers[t]);
    assert s.log[..|s.log|] == s.log;
  }

  /** Every step keeps the invariant, and the successful changes only grow. */
  lemma StepKeeps(start: Option<StateFile>, s: State, a: Action)
    requires Inv(start, s) && Enabled(s, a)
    ensures Inv(start, After(s, a))
    ensures s.log <= After(s, a).log
  {
    hide Applied, Needed, Changed;
    match a
    case Begin(t, c) =>
    case ReadFile(t) => ReadingKeeps(start, s, t);
    case WriteFile(t) =>
      if s.writers[t].seen == |s.log| {
        LandingKeeps(start, s, t);
      } else {
        MissingKeeps(start, s, t);
      }
  }

  lemma MissingKeeps(start: Option<StateFile>, s: State, t: Task)
    requires Inv(start, s) && Enabled(s, WriteFile(t)) && s.writers[t].seen != |s.log|
    ensures Inv(start, After(s, WriteFile(t))) && After(s, WriteFile(t)).log == s.log
  {
    hide Applied, Needed, Changed;
    LandsExactly(start, s, t);
    assert WriterAgrees(start, s.log, t, s.writers[t]);
  }

  ghost predicate Run(states: seq<State>, actions: seq<Action>) {
    && |states| == |actions| + 1
    && forall i: nat | i < |actions| :: Enabled(states[i], actions[i]) && states[i + 1] == After(states[i], actions[i])
  }

  lemma {:induction false} RunKeeps(start: Option<StateFile>, states: seq<State>, actions: seq<Action>, i: nat, j: nat)
    requires Run(states, actions) && Inv(start, states[0]) && i <= j < |states|
    ensures Inv(start, states[j]) && states[i].log <= states[j].log
  {
    hide Inv, After, Enabled;
    if j > 0 {
      RunKeeps(start, states, actions, if i < j then i else i - 1, j - 1);
      StepKeeps(start, states[j - 1], actions[j - 1]);
    }
  }

  /**
   Under any interleaving the revision counts the successful changes, the stored notices are those
   changes applied one at a time in the order of their revisions, and a writer's change is among
   them exactly once if it was written and not at all otherwise.
   */
  lemma NoticesAreLinearizable(start: Option<StateFile>, states: seq<State>, actions: seq<Action>, i: nat, t: Task)
    requires Run(states, actions) && states[0] == State(start, [], map[]) && i < |states|
    ensures Revision(states[i].file) == RevisionAfter(start, |states[i].log|)
    ensures ValidNotices(states[i].file) == Applied(ValidNotices(start), states[i].log)
    ensures t in states[i].writers && states[i].writers[t].Done? ==>
      var w := states[i].writers[t];
      if w.outcome.Written? then w.outcome.place < |states[i].log|
        && states[i].log[w.outcome.place] == (t, w.change) && OnlyAt(t, w.outcome.place, states[i].log)
      else NotIn(t, states[i].log)
    ensures forall e | e in states[i].log :: e.0 in states[i].writers
  {
    RunKeeps(start, states, actions, i, i);
    if t in states[i].writers {
      assert WriterAgrees(start, states[i].log, t, states[i].writers[t]);
    }
  }

  /** The last of some changes that is about an id. */
  ghost predicate LastAbout(id: string, k: nat, log: seq<(Task, Change)>) {
    k < |log| && log[k].1.id == id && forall j | k < j < |log| :: log[j].1.id != id
  }

  /** What stands under an id: what the last change about it recorded, nothing if it cleared it, else what there was. */
  ghost predicate LastDecides(id: string, start: Entries, log: seq<(Task, Change)>, now: Entries) {
    && (forall k: nat | LastAbout(id, k, log) ::
          if log[k].1.Record? then id in now && now[id] == log[k].1.notice else id !in now)
    && ((forall e | e in log :: e.1.id != id) ==> (id in now <==> id in start) && (id in now ==> now[id] == start[id]))
  }

  lemma {:induction false} AppliedByLast(start: Entries, log: seq<(Task, Change)>, id: string)
    ensures LastDecides(id, start, log, Applied(start, log))
  {
    hide LastDecides;
    if log == [] {
      NoneDecides(id, start);
    } else {
      var before, last := log[..|log| - 1], log[|log| - 1];
      assert log == before + [last];
      AppliedByLast(start, before, id);
      OneMoreDecides(id, start, before, Applied(start, before), last);
    }
  }

  lemma NoneDecides(id: string, start: Entries)
    ensures LastDecides(id, start, [], start)
  {
  }

  lemma OneMoreDecides(id: string, start: Entries, log: seq<(Task, Change)>, now: Entries, e: (Task, Change))
    requires LastDecides(id, start, log, now)
    ensures LastDecides(id, start, log + [e], Changed(e.1, now))
  {
    var after, next := log + [e], Changed(e.1, now);
    assert e in after && forall d | d in log :: d in after;
    forall k: nat | LastAbout(id, k, after)
      ensures if after[k].1.Record? then id in next && next[id] == after[k].1.notice else id !in next
    {
      if k < |log| {
        assert after[|log|].1.id != id;
        assert forall j | k < j < |log| :: after[j] == log[j];
        assert LastAbout(id, k, log);
      }
    }
  }

  /**
   At every moment of every run there stands under each id what the last successful change about it
   left, and what there was if none was about it: no change touches the notice of another id.
   */
  lemma LastChangeWins(start: Option<StateFile>, states: seq<State>, actions: seq<Action>, i: nat, id: string)
    requires Run(states, actions) && states[0] == State(start, [], map[]) && i < |states|
    ensures LastDecides(id, ValidNotices(start), states[i].log, ValidNotices(states[i].file))
  {
    hide LastDecides;
    RunKeeps(start, states, actions, i, i);
    AppliedByLast(ValidNotices(start), states[i].log, id);
  }

  /**
   A writer gives up only when five other changes succeeded meanwhile. It writes nothing exactly when
   it was to clear a notice that was not there when it looked: what was written records a notice, or
   clears one that was there.
   */
  lemma GivingUpIsJustified(start: Option<StateFile>, states: seq<State>, actions: seq<Action>, i: nat, t: Task)
    requires Run(states, actions) && states[0] == State(start, [], map[]) && i < |states|
    requires t in states[i].writers && states[i].writers[t].Done?
    ensures states[i].writers[t].outcome.Exhausted? ==>
      && states[i].writers[t].from + ATTEMPTS <= |states[i].log|
      && forall k | states[i].writers[t].from <= k < |states[i].log| :: states[i].log[k].0 != t
    ensures var w := states[i].writers[t];
      w.outcome.Unneeded? ==>
        && w.from <= w.outcome.seen <= |states[i].log|
        && w.change.Clear?
        && w.change.id !in Applied(ValidNotices(start), states[i].log[..w.outcome.seen])
    ensures var w := states[i].writers[t];
      w.outcome.Written? ==>
        w.outcome.place < |states[i].log|
        && (w.change.Record? || w.change.id in Applied(ValidNotices(start), states[i].log[..w.outcome.place]))
  {
    RunKeeps(start, states, actions, i, i);
    assert WriterAgrees(start, states[i].log, t, states[i].writers[t]);
  }

  // ----- The retry loop as the program runs it -----

  class ControlState {
    var file: Option<StateFile>
    /** The successful changes so far, and where each writer stands. */
    var log: seq<(Task, Change)>
    var writers: map<Task, Writer>
    /** The file as it was when this state directory was first looked at. */
    ghost const start: Option<StateFile>

    ghost function Now(): State
      reads this
    {
      State(file, log, writers)
    }

    constructor (file: Option<StateFile>)
      ensures Now() == State(file, [], map[]) && start == file && Inv(start, Now())
    {
      this.file, start := file, file;
      log, writers := [], map[];
    }

    /** Any number of steps of the other writers. */
    method Others(mine: Task)
      requires Inv(start, Now())
      modifies this
      ensures Inv(start, Now()) && old(log) <= log
      ensures mine in old(writers) ==> mine in writers && writers[mine] == old(writers[mine])
      ensures mine !in old(writers) ==> mine !in writers
    {
      hide Inv;
      var steps: int := *;
      while steps > 0
        invariant Inv(start, Now()) && old(log) <= log
        invariant mine in old(writers) ==> mine in writers && writers[mine] == old(writers[mine])
        invariant mine !in old(writers) ==> mine !in writers
      {
        var a: Action := *;
        var s := State(file, log, writers);
        steps := steps - 1;
        if Enabled(s, a) && a.task != mine {
          StepKeeps(start, s, a);
          var r := After(s, a);
          file, log, writers := r.file, r.log, r.writers;
        }
      }
    }

    method Read() returns (revision: Option<nat>, notices: Entries)
      ensures revision == Revision(file) && notices == ValidNotices(file)
    {
      if file.None? {
        return None, map[];
      }
      revision := Some(file.value.revision);
      notices := map id | id in file.value.entries && Readable(file.value.entries[id]) :: file.value.entries[id];
    }

    /** The check of the revision and the replacement, under the lock. */
    method WriteLocked(entries: Entries, ifRevision: Option<nat>) returns (written: Result<StateFile, nat>)
      modifies `file
      ensures written == Write(old(file), entries, ifRevision)
      ensures file == if written.Ok? then Some(written.value) else old(file)
    {
      if file.None? && ifRevision.Some? {
        return Err(0);
      }
      if file.Some? && ifRevision != Some(file.value.revision) {
        return Err(file.value.revision);
      }
      var f := StateFile(if file.None? then 1 else file.value.revision + 1, entries);
      file := Some(f);
      return Ok(f);
    }

    /** One write of an attempt, and what the writer makes of its result. */
    method TryWrite(task: Task, change: Change, from: nat, attempt: nat, revision: Option<nat>, notices: Entries)
      returns (outcome: Option<Outcome>)
      requires Inv(start, Now()) && Enabled(Now(), WriteFile(task))
      requires attempt < ATTEMPTS && writers[task] ==
        Holding(change, from, attempt, writers[task].seen, revision, notices)
      modifies this
      ensures Inv(start, Now()) && Now() == After(old(Now()), WriteFile(task)) && old(log) <= log
      ensures outcome.Some? ==> writers[task] == Done(change, from, outcome.value)
      ensures outcome.None? ==> attempt + 1 < ATTEMPTS && writers[task] == Trying(change, from, attempt + 1)
    {
      hide Inv, Needed, Changed, Write, ValidNotices;
      StepKeeps(start, Now(), WriteFile(task));
      var written := WriteLocked(Changed(change, notices), revision);
      outcome := if written.Ok? then Some(Written(|log|)) else if attempt == ATTEMPTS - 1 then Some(Exhausted)
        else None;
      if written.Ok? {
        log := log + [(task, change)];
      }
      writers := writers[task := if outcome.Some? then Done(change, from, outcome.value)
        else Trying(change, from, attempt + 1)];
    }

    /** Read, change, write back against that revision; try again on what another writer left. */
    method ChangeNotices(task: Task, change: Change) returns (outcome: Outcome)
      requires Inv(start, Now()) && Enabled(Now(), Begin(task, change))
      modifies this
      ensures Inv(start, Now()) && old(log) <= log
      ensures task in writers && writers[task] == Done(change, |old(log)|, outcome)
    {
      hide Inv, Needed, Changed, Write, ValidNotices;
      var from := |log|;
      StepKeeps(start, Now(), Begin(task, change));
      writers := writers[task := Trying(change, from, 0)];
      for attempt := 0 to ATTEMPTS
        invariant attempt < ATTEMPTS
        invariant Inv(start, Now()) && old(log) <= log
        invariant task in writers && writers[task] == Trying(change, from, attempt)
      {
        Others(task);
        StepKeeps(start, Now(), ReadFile(task));
        var revision, notices := Read();
        if !Needed(change, notices) {
          writers := writers[task := Done(change, from, Unneeded(|log|))];
          return Unneeded(|log|);
        }
        writers := writers[task := Holding(change, from, attempt, |log|, revision, notices)];
        Others(task);
        var done := TryWrite(task, change, from, attempt, revision, notices);
        if done.Some? {
          return done.value;
        }
      }
      assert false;
    }
  }
}
