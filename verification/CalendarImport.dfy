/**
 Merging calendar exports by revision. A stored event is replaced only by a newer
 revision; two events of one revision must have the same content, or the merge is refused.
 */
module CalendarImport {
  import opened Results
  import opened Ordering
  import Seqs

  /** Where a copy of an event was seen. */
  datatype Provenance = Provenance(sourceId: string, filename: string, entry: string, importedAt: string)

  datatype Person = Person(address: string, name: string, role: string, participation: string,
                           contact: Option<string>)

  /** SEQUENCE, then LAST-MODIFIED in UTC; an absent LAST-MODIFIED is the empty string. */
  datatype Revision = Revision(sequence: nat, stamp: string)

  /** `identity` and `semantic` stand for the two hashes of an event, taken as injective. */
  datatype Event = Event(identity: string, revision: Revision, semantic: string, title: string,
                         people: seq<Person>, provenance: seq<Provenance>)

  type Rows = map<string, Event>

  datatype Conflict = Conflict(incoming: Event, stored: Event)

  predicate Newer(a: Revision, b: Revision) {
    a.sequence > b.sequence || (a.sequence == b.sequence && Less(b.stamp, a.stamp))
  }

  lemma NewerIsStrictOrder(a: Revision, b: Revision, c: Revision)
    ensures !Newer(a, a)
    ensures Newer(a, b) && Newer(b, c) ==> Newer(a, c)
    ensures a == b || Newer(a, b) || Newer(b, a)
  {
    LessIrreflexive(a.stamp);
    LessTotal(a.stamp, b.stamp);
    if Less(b.stamp, a.stamp) && Less(c.stamp, b.stamp) {
      LessTransitive(c.stamp, b.stamp, a.stamp);
    }
  }

  // ----- Witness lists -----

  /** The sort key of a witness. */
  predicate Before(a: Provenance, b: Provenance) {
    Less(a.importedAt, b.importedAt) ||
    (a.importedAt == b.importedAt &&
     (Less(a.sourceId, b.sourceId) || (a.sourceId == b.sourceId && Less(a.entry, b.entry))))
  }

  /** Place `w` behind every witness that is not strictly after it, so sorting is stable. */
  function Insert(w: Provenance, sorted: seq<Provenance>): (r: seq<Provenance>)
    ensures multiset(r) == multiset(sorted) + multiset{w}
  {
    if sorted == [] then [w]
    else
      assert sorted == sorted[..|sorted| - 1] + [sorted[|sorted| - 1]];
      if Before(w, sorted[|sorted| - 1])
      then Insert(w, sorted[..|sorted| - 1]) + [sorted[|sorted| - 1]]
      else sorted + [w]
  }

  function Sorted(ws: seq<Provenance>): (r: seq<Provenance>)
    ensures multiset(r) == multiset(ws)
  {
    if ws == [] then []
    else
      assert ws == ws[..|ws| - 1] + [ws[|ws| - 1]];
      Insert(ws[|ws| - 1], Sorted(ws[..|ws| - 1]))
  }

  /** No witness stands before one that its key puts first. */
  ghost predicate InOrder(ws: seq<Provenance>) {
    forall i, j | 0 <= i < j < |ws| :: !Before(ws[j], ws[i])
  }

  lemma BehindOrEqual(a: Provenance, b: Provenance, c: Provenance)
    ensures !Before(b, a) && !Before(c, b) ==> !Before(c, a)
    ensures Before(a, b) ==> !Before(b, a)
  {
    LessIrreflexive(a.importedAt);
    LessIrreflexive(a.sourceId);
    LessIrreflexive(a.entry);
    Comparable(a.importedAt, b.importedAt, c.importedAt);
    Comparable(a.sourceId, b.sourceId, c.sourceId);
    Comparable(a.entry, b.entry, c.entry);
  }

  lemma Comparable(a: string, b: string, c: string)
    ensures !Less(b, a) && !Less(c, b) ==> !Less(c, a)
    ensures a == b || Less(a, b) || Less(b, a)
    ensures !(Less(a, b) && Less(b, a))
    ensures b == c || Less(b, c) || Less(c, b)
    ensures a == c || Less(a, c) || Less(c, a)
    ensures !(Less(b, c) && Less(c, b)) && !(Less(a, c) && Less(c, a))
    ensures Less(a, b) && Less(b, c) ==> Less(a, c)
  {
    LessTotal(a, b);
    LessTotal(b, c);
    LessTotal(a, c);
    LessIrreflexive(a);
    LessIrreflexive(b);
    LessIrreflexive(c);
    if Less(a, b) && Less(b, a) { LessTransitive(a, b, a); }
    if Less(b, c) && Less(c, b) { LessTransitive(b, c, b); }
    if Less(a, c) && Less(c, a) { LessTransitive(a, c, a); }
    if Less(a, b) && Less(b, c) { LessTransitive(a, b, c); }
  }

  lemma {:induction false} InsertInOrder(w: Provenance, sorted: seq<Provenance>)
    requires InOrder(sorted)
    ensures InOrder(Insert(w, sorted))
  {
    hide Before;
    if sorted != [] {
      var init, last := sorted[..|sorted| - 1], sorted[|sorted| - 1];
      Seqs.SplitLast(sorted);
      if Before(w, last) {
        InsertInOrder(w, init);
        BehindOrEqual(w, last, w);
        forall x | x in Insert(w, init) ensures !Before(last, x) {
          assert x in multiset(Insert(w, init));
          if x in init {
            var i :| 0 <= i < |init| && init[i] == x;
            assert sorted[i] == x;
          }
        }
      } else {
        forall i | 0 <= i < |sorted| ensures !Before(w, sorted[i]) {
          BehindOrEqual(sorted[i], last, w);
        }
      }
    }
  }

  /** Witnesses are kept in the order of their import, source and entry. */
  lemma {:induction false} SortedInOrder(ws: seq<Provenance>)
    ensures InOrder(Sorted(ws))
  {
    if ws != [] {
      SortedInOrder(ws[..|ws| - 1]);
      InsertInOrder(ws[|ws| - 1], Sorted(ws[..|ws| - 1]));
    }
  }

  function Union(held: seq<Provenance>, more: seq<Provenance>): seq<Provenance>
    decreases more
  {
    if more == [] then held
    else Union(if more[0] in held then held else held + [more[0]], more[1..])
  }

  function Witnesses(ws: seq<Provenance>): set<Provenance> {
    set w | w in ws
  }

  lemma {:induction false} UnionWitnesses(held: seq<Provenance>, more: seq<Provenance>)
    ensures Witnesses(Union(held, more)) == Witnesses(held) + Witnesses(more)
    decreases more
  {
    if more != [] {
      var next := if more[0] in held then held else held + [more[0]];
      UnionWitnesses(next, more[1..]);
      assert Witnesses(next) == Witnesses(held) + {more[0]};
      assert Witnesses(more) == {more[0]} + Witnesses(more[1..]) by {
        assert more == [more[0]] + more[1..];
      }
    }
  }

  lemma SortedWitnesses(ws: seq<Provenance>)
    ensures Witnesses(Sorted(ws)) == Witnesses(ws)
  {
    forall w ensures w in Sorted(ws) <==> w in ws {
      assert w in multiset(Sorted(ws)) <==> w in multiset(ws);
    }
  }

  // ----- Merging -----

  /** What merging leaves for one identity that is already stored. */
  function Combined(stored: Event, incoming: Event): Event {
    (if Newer(incoming.revision, stored.revision) then incoming else stored)
    .(provenance := Sorted(Union(stored.provenance, incoming.provenance)))
  }

  predicate Clashes(stored: Event, incoming: Event) {
    incoming.revision == stored.revision && incoming.semantic != stored.semantic
  }

  function Merge(rows: Rows, event: Event): Result<Rows, Conflict> {
    if event.identity !in rows then Ok(rows[event.identity := event])
    else if Clashes(rows[event.identity], event) then Err(Conflict(event, rows[event.identity]))
    else Ok(rows[event.identity := Combined(rows[event.identity], event)])
  }

  function MergeAll(rows: Rows, events: seq<Event>): Result<Rows, Conflict> {
    if events == [] then Ok(rows)
    else
      var last := |events| - 1;
      match MergeAll(rows, events[..last])
      case Err(conflict) => Err(conflict)
      case Ok(merged) => Merge(merged, events[last])
  }

  lemma {:induction false} MergeAllConcat(rows: Rows, a: seq<Event>, b: seq<Event>)
    ensures MergeAll(rows, a + b) ==
            match MergeAll(rows, a) case Ok(m) => MergeAll(m, b) case Err(c) => Err(c)
  {
    if b == [] {
      assert a + b == a;
    } else {
      MergeAllConcat(rows, a, b[..|b| - 1]);
      assert (a + b)[..|a + b| - 1] == a + b[..|b| - 1];
    }
  }

  /** The dictionary being merged into, updated in place. */
  class Merged {
    var rows: Rows

    constructor (current: Rows)
      ensures rows == current
    {
      rows := current;
    }

    /** A conflict is reported before anything changes. */
    method MergeEventInto(event: Event) returns (refused: Option<Conflict>)
      modifies this
      ensures match Merge(old(rows), event)
              case Ok(merged) => refused == None && rows == merged
              case Err(conflict) => refused == Some(conflict) && rows == old(rows)
    {
      if event.identity !in rows {
        rows := rows[event.identity := event];
        return None;
      }
      var previous := rows[event.identity];
      if event.revision == previous.revision && event.semantic != previous.semantic {
        return Some(Conflict(event, previous));
      }
      var winner := if Newer(event.revision, previous.revision) then event else previous;
      var witnesses := previous.provenance;
      for i := 0 to |event.provenance|
        invariant Union(witnesses, event.provenance[i..]) == Union(previous.provenance, event.provenance)
      {
        assert event.provenance[i..][1..] == event.provenance[i + 1..];
        if event.provenance[i] !in witnesses {
          witnesses := witnesses + [event.provenance[i]];
        }
      }
      rows := rows[event.identity := winner.(provenance := Sorted(witnesses))];
      return None;
    }
  }

  /** The events of one import, merged one after another; what it does not name stays. */
  method MergeEvents(current: Rows, incoming: seq<Event>) returns (merged: Result<Rows, Conflict>)
    ensures merged == MergeAll(current, incoming)
  {
    var target := new Merged(current);
    for i := 0 to |incoming|
      invariant fresh(target)
      invariant MergeAll(current, incoming[..i]) == Ok(target.rows)
    {
      assert incoming[..i + 1][..i] == incoming[..i];
      var refused := target.MergeEventInto(incoming[i]);
      if refused.Some? {
        MergeAllConcat(current, incoming[..i + 1], incoming[i + 1..]);
        assert incoming == incoming[..i + 1] + incoming[i + 1..];
        return Err(refused.value);
      }
    }
    assert incoming[..|incoming|] == incoming;
    return Ok(target.rows);
  }

  // ----- What a successful merge leaves, said of the events alone -----

  function Identities(events: seq<Event>): set<string> {
    set e | e in events :: e.identity
  }

  /** `a` is what is stored under an identity, or one of the events merged into it. */
  ghost predicate Among(a: Event, id: string, rows: Rows, events: seq<Event>) {
    (id in rows && a == rows[id]) || (a in events && a.identity == id)
  }

  ghost predicate Seen(w: Provenance, id: string, rows: Rows, events: seq<Event>) {
    exists a :: Among(a, id, rows, events) && w in a.provenance
  }

  /**
   `row` is what stored rows and events say about one identity, whatever order they came in: but for
   its witnesses it is one of them, no other is newer, and it has the witnesses of all.
   */
  ghost predicate Summary(row: Event, id: string, rows: Rows, events: seq<Event>) {
    && (forall a | Among(a, id, rows, events) ::
          !Newer(a.revision, row.revision) && (a.revision == row.revision ==> a.semantic == row.semantic))
    && (exists a :: Among(a, id, rows, events) && row == a.(provenance := row.provenance))
    && (forall w :: w in row.provenance <==> Seen(w, id, rows, events))
  }

  ghost predicate Summarises(merged: Rows, rows: Rows, events: seq<Event>) {
    && merged.Keys == rows.Keys + Identities(events)
    && forall id | id in merged :: Summary(merged[id], id, rows, events)
  }

  lemma AmongMore(a: Event, id: string, rows: Rows, events: seq<Event>, e: Event)
    ensures Among(a, id, rows, events + [e]) <==> Among(a, id, rows, events) || (a == e && e.identity == id)
  {
  }

  lemma SeenMore(w: Provenance, id: string, rows: Rows, events: seq<Event>, e: Event)
    ensures Seen(w, id, rows, events + [e]) <==>
      Seen(w, id, rows, events) || (e.identity == id && w in e.provenance)
  {
    if a :| Among(a, id, rows, events + [e]) && w in a.provenance {
      AmongMore(a, id, rows, events, e);
    }
    if a :| Among(a, id, rows, events) && w in a.provenance {
      AmongMore(a, id, rows, events, e);
    }
    AmongMore(e, id, rows, events, e);
  }

  lemma CombinedIsSummary(stored: Event, e: Event, rows: Rows, events: seq<Event>)
    requires Summary(stored, e.identity, rows, events) && !Clashes(stored, e)
    ensures Summary(Combined(stored, e), e.identity, rows, events + [e])
  {
    hide Among, Newer, Seen, Sorted, Union;
    var row, id, all := Combined(stored, e), e.identity, events + [e];
    forall a | Among(a, id, rows, all)
      ensures !Newer(a.revision, row.revision) && (a.revision == row.revision ==> a.semantic == row.semantic)
    {
      AmongMore(a, id, rows, events, e);
      NewerIsStrictOrder(a.revision, e.revision, stored.revision);
      NewerIsStrictOrder(e.revision, stored.revision, a.revision);
    }
    var top :| Among(top, id, rows, events) && stored == top.(provenance := stored.provenance);
    AmongMore(top, id, rows, events, e);
    AmongMore(e, id, rows, events, e);
    assert row == top.(provenance := row.provenance) || row == e.(provenance := row.provenance);
    forall w ensures w in row.provenance <==> Seen(w, id, rows, all) {
      CombinedWitness(w, stored, e, rows, events);
    }
  }

  lemma CombinedWitness(w: Provenance, stored: Event, e: Event, rows: Rows, events: seq<Event>)
    requires w in stored.provenance <==> Seen(w, e.identity, rows, events)
    ensures w in Combined(stored, e).provenance <==> Seen(w, e.identity, rows, events + [e])
  {
    hide Seen, Sorted, Union;
    UnionWitnesses(stored.provenance, e.provenance);
    SortedWitnesses(Union(stored.provenance, e.provenance));
    SeenMore(w, e.identity, rows, events, e);
    assert w in Combined(stored, e).provenance <==> w in Witnesses(stored.provenance) + Witnesses(e.provenance);
  }

  lemma FirstIsSummary(e: Event, rows: Rows, events: seq<Event>)
    requires e.identity !in rows && e.identity !in Identities(events)
    ensures Summary(e, e.identity, rows, events + [e])
  {
    NewerIsStrictOrder(e.revision, e.revision, e.revision);
    forall a ensures Among(a, e.identity, rows, events + [e]) <==> a == e {
      AmongMore(a, e.identity, rows, events, e);
    }
    assert e == e.(provenance := e.provenance);
  }

  lemma OtherIsSummary(row: Event, id: string, rows: Rows, events: seq<Event>, e: Event)
    requires Summary(row, id, rows, events) && id != e.identity
    ensures Summary(row, id, rows, events + [e])
  {
    forall a ensures Among(a, id, rows, events + [e]) <==> Among(a, id, rows, events) {
      AmongMore(a, id, rows, events, e);
    }
  }

  lemma MergeSummarises(merged: Rows, rows: Rows, events: seq<Event>, e: Event)
    requires Summarises(merged, rows, events) && Merge(merged, e).Ok?
    ensures Summarises(Merge(merged, e).value, rows, events + [e])
  {
    hide Summary, Combined;
    var next := Merge(merged, e).value;
    assert Identities(events + [e]) == Identities(events) + {e.identity};
    forall id | id in next ensures Summary(next[id], id, rows, events + [e]) {
      if id != e.identity {
        OtherIsSummary(merged[id], id, rows, events, e);
      } else if id in merged {
        CombinedIsSummary(merged[id], e, rows, events);
      } else {
        FirstIsSummary(e, rows, events);
      }
    }
  }

  lemma NothingMerged(rows: Rows)
    ensures Summarises(rows, rows, [])
  {
    forall id | id in rows ensures Summary(rows[id], id, rows, []) {
      NewerIsStrictOrder(rows[id].revision, rows[id].revision, rows[id].revision);
      assert Among(rows[id], id, rows, []) && rows[id] == rows[id].(provenance := rows[id].provenance);
    }
  }

  lemma {:induction false} MergeAllSummarises(rows: Rows, events: seq<Event>)
    requires MergeAll(rows, events).Ok?
    ensures Summarises(MergeAll(rows, events).value, rows, events)
  {
    hide Summarises;
    if events == [] {
      NothingMerged(rows);
    } else {
      var last := |events| - 1;
      MergeAllSummarises(rows, events[..last]);
      MergeSummarises(MergeAll(rows, events[..last]).value, rows, events[..last], events[last]);
      Seqs.SplitLast(events);
    }
  }

  /** The highest SEQUENCE wins, and among equal ones the latest LAST-MODIFIED. */
  lemma HighestWins(rows: Rows, events: seq<Event>, id: string, a: Event)
    requires MergeAll(rows, events).Ok? && Among(a, id, rows, events)
    ensures var merged := MergeAll(rows, events).value;
      && id in merged
      && (a.revision.sequence < merged[id].revision.sequence
          || (a.revision.sequence == merged[id].revision.sequence
              && AtMost(a.revision.stamp, merged[id].revision.stamp)))
  {
    MergeAllSummarises(rows, events);
    LessTotal(a.revision.stamp, MergeAll(rows, events).value[id].revision.stamp);
  }

  /** An event of a revision that is there already never takes its place. */
  ghost predicate FirstOfItsRevision(row: Event, id: string, rows: Rows, events: seq<Event>) {
    if id in rows && rows[id].revision == row.revision then row == rows[id].(provenance := row.provenance)
    else exists k: nat :: FirstAt(k, row, id, events)
  }

  predicate FirstAt(k: nat, row: Event, id: string, events: seq<Event>) {
    && k < |events| && events[k].identity == id && row == events[k].(provenance := row.provenance)
    && forall i | 0 <= i < k :: !(events[i].identity == id && events[i].revision == row.revision)
  }

  lemma FirstStays(row: Event, id: string, rows: Rows, events: seq<Event>, e: Event, ws: seq<Provenance>)
    requires FirstOfItsRevision(row, id, rows, events)
    ensures FirstOfItsRevision(row.(provenance := ws), id, rows, events + [e])
  {
    var next := row.(provenance := ws);
    if id in rows && rows[id].revision == row.revision {
      assert next == rows[id].(provenance := ws);
    } else {
      var k: nat :| FirstAt(k, row, id, events);
      assert next == events[k].(provenance := ws);
      assert FirstAt(k, next, id, events + [e]);
    }
  }

  lemma {:induction false} KeptIsFirst(rows: Rows, events: seq<Event>, id: string)
    requires MergeAll(rows, events).Ok? && id in MergeAll(rows, events).value
    ensures FirstOfItsRevision(MergeAll(rows, events).value[id], id, rows, events)
  {
    if events != [] {
      var before, e := events[..|events| - 1], events[|events| - 1];
      var merged, row := MergeAll(rows, before).value, MergeAll(rows, events).value[id];
      Seqs.SplitLast(events);
      MergeAllSummarises(rows, before);
      if id in merged {
        KeptIsFirst(rows, before, id);
        FirstStays(merged[id], id, rows, before, e, row.provenance);
      }
      if id == e.identity && (id in merged ==> Newer(e.revision, merged[id].revision)) {
        forall i | 0 <= i < |before| && events[i].identity == id ensures events[i].revision != row.revision {
          assert Among(before[i], id, rows, before);
        }
        assert id in rows ==> Among(rows[id], id, rows, before);
        NewerIsStrictOrder(e.revision, e.revision, e.revision);
        assert FirstAt(|before|, row, id, events);
      }
    }
  }

  /** Two stored events that a reader of the calendar cannot tell apart. */
  ghost predicate SameEvent(a: Event, b: Event) {
    a.revision == b.revision && a.semantic == b.semantic && Witnesses(a.provenance) == Witnesses(b.provenance)
  }

  ghost predicate Agree(a: Rows, b: Rows) {
    a.Keys == b.Keys && forall id | id in a :: SameEvent(a[id], b[id])
  }

  lemma SummariesAgree(a: Event, b: Event, id: string, xs: seq<Event>, ys: seq<Event>)
    requires Summary(a, id, map[], xs) && Summary(b, id, map[], ys)
    requires forall e :: e in xs <==> e in ys
    ensures SameEvent(a, b)
  {
    forall e ensures Among(e, id, map[], xs) <==> Among(e, id, map[], ys) {
    }
    var e :| Among(e, id, map[], xs) && a == e.(provenance := a.provenance);
    var f :| Among(f, id, map[], ys) && b == f.(provenance := b.provenance);
    NewerIsStrictOrder(a.revision, b.revision, a.revision);
    forall w ensures w in a.provenance <==> w in b.provenance {
      assert Seen(w, id, map[], xs) <==> Seen(w, id, map[], ys);
    }
  }

  lemma {:induction false} IdentitiesKept(rows: Rows, events: seq<Event>)
    requires MergeAll(rows, events).Ok?
    ensures MergeAll(rows, events).value.Keys == rows.Keys + Identities(events)
  {
    if events != [] {
      var last := |events| - 1;
      IdentitiesKept(rows, events[..last]);
      assert events == events[..last] + [events[last]];
    }
  }

  lemma SameElements(xs: seq<Event>, ys: seq<Event>)
    requires multiset(xs) == multiset(ys)
    ensures forall e :: e in xs <==> e in ys
  {
    forall e ensures e in xs <==> e in ys {
      assert e in multiset(xs) <==> e in multiset(ys);
    }
  }

  /** Order independence: two orders of the same events that both succeed leave the same calendar. */
  lemma MergeOrderIndependent(xs: seq<Event>, ys: seq<Event>)
    requires multiset(xs) == multiset(ys)
    requires MergeAll(map[], xs).Ok? && MergeAll(map[], ys).Ok?
    ensures Agree(MergeAll(map[], xs).value, MergeAll(map[], ys).value)
  {
    var a, b := MergeAll(map[], xs).value, MergeAll(map[], ys).value;
    MergeAllSummarises(map[], xs);
    MergeAllSummarises(map[], ys);
    SameElements(xs, ys);
    assert Identities(xs) == Identities(ys);
    forall id | id in a ensures SameEvent(a[id], b[id]) {
      SummariesAgree(a[id], b[id], id, xs, ys);
    }
  }

  // ----- Exactly which orders are refused -----

  predicate Sibling(a: Event, b: Event) {
    a.identity == b.identity
  }

  predicate Contradict(a: Event, b: Event) {
    Sibling(a, b) && Clashes(a, b)
  }

  /** An event that contradicts a stored or earlier one must find a newer revision already there. */
  ghost predicate Acceptable(rows: Rows, before: seq<Event>, e: Event) {
    (exists a :: Among(a, e.identity, rows, before) && Clashes(a, e)) ==>
      exists f :: Among(f, e.identity, rows, before) && Newer(f.revision, e.revision)
  }

  ghost predicate Tolerated(rows: Rows, events: seq<Event>) {
    forall j | 0 <= j < |events| :: Acceptable(rows, events[..j], events[j])
  }

  lemma MergeAcceptsExactly(merged: Rows, rows: Rows, before: seq<Event>, e: Event)
    requires Summarises(merged, rows, before)
    ensures Merge(merged, e).Ok? <==> Acceptable(rows, before, e)
  {
    hide Newer, Combined;
    if e.identity in merged {
      var stored := merged[e.identity];
      assert Summary(stored, e.identity, rows, before);
      var top :| Among(top, e.identity, rows, before) && stored == top.(provenance := stored.provenance);
      NewerIsStrictOrder(stored.revision, e.revision, stored.revision);
      if Clashes(stored, e) {
        assert Clashes(top, e);
      } else if a :| Among(a, e.identity, rows, before) && Clashes(a, e) {
        assert Newer(top.revision, e.revision);
      }
    }
  }

  /** What is there and an order of events are accepted if and only if they are tolerated. */
  lemma {:induction false} MergeSucceedsExactly(rows: Rows, events: seq<Event>)
    ensures MergeAll(rows, events).Ok? <==> Tolerated(rows, events)
  {
    hide Acceptable, Summarises;
    if events != [] {
      var last := |events| - 1;
      var before := events[..last];
      MergeSucceedsExactly(rows, before);
      ToleratedSnoc(rows, events);
      if MergeAll(rows, before).Ok? {
        MergeAllSummarises(rows, before);
        MergeAcceptsExactly(MergeAll(rows, before).value, rows, before, events[last]);
      }
    }
  }

  lemma ToleratedSnoc(rows: Rows, events: seq<Event>)
    requires events != []
    ensures Tolerated(rows, events) <==>
      Tolerated(rows, events[..|events| - 1]) && Acceptable(rows, events[..|events| - 1], events[|events| - 1])
  {
    hide Acceptable;
    var last := |events| - 1;
    var before := events[..last];
    forall j | 0 <= j < last
      ensures Acceptable(rows, before[..j], before[j]) <==> Acceptable(rows, events[..j], events[j])
    {
      assert before[..j] == events[..j];
    }
  }

  /** No order at all is refused if and only if equal revisions always carry equal content. */
  lemma NoOrderFailsExactly(events: seq<Event>)
    ensures (forall order: seq<Event> | multiset(order) == multiset(events) :: MergeAll(map[], order).Ok?) <==>
            (forall a, b | a in events && b in events :: !Contradict(a, b))
  {
    if forall a, b | a in events && b in events :: !Contradict(a, b) {
      forall order: seq<Event> | multiset(order) == multiset(events) ensures MergeAll(map[], order).Ok? {
        forall e | e in order ensures e in events {
          assert e in multiset(order);
        }
        forall j | 0 <= j < |order| ensures Acceptable(map[], order[..j], order[j]) {
          if a :| Among(a, order[j].identity, map[], order[..j]) && Clashes(a, order[j]) {
            assert a in order && Contradict(a, order[j]);
          }
        }
        MergeSucceedsExactly(map[], order);
      }
    } else {
      var a, b :| a in events && b in events && Contradict(a, b);
      var order := BadOrder(events, a, b);
      MergeSucceedsExactly(map[], order);
      assert order[..1] == [a];
      NewerIsStrictOrder(a.revision, b.revision, a.revision);
      assert Among(a, b.identity, map[], order[..1]) && Clashes(a, b);
      assert !Acceptable(map[], order[..1], order[1]);
    }
  }

  /**
   Which order an import comes in can decide whether it is accepted: a revision that settles two
   contradicting ones has to come before the second of them.
   */
  lemma OrderCanDecide(a: Event, b: Event, f: Event)
    requires Contradict(a, b) && Sibling(f, a) && Newer(f.revision, a.revision)
    ensures MergeAll(map[], [a, f, b]).Ok? && MergeAll(map[], [a, b, f]).Err?
  {
    MergeSucceedsExactly(map[], [a, f, b]);
    MergeSucceedsExactly(map[], [a, b, f]);
    var good, bad := [a, f, b], [a, b, f];
    assert good[..1] == [a] && good[..2] == [a, f] && bad[..1] == [a];
    NewerIsStrictOrder(a.revision, b.revision, f.revision);
    assert Among(f, b.identity, map[], good[..2]) && Among(a, b.identity, map[], bad[..1]);
    assert !Acceptable(map[], bad[..1], bad[1]);
    assert Acceptable(map[], good[..2], good[2]);
  }

  ghost function Without(events: seq<Event>, e: Event): (rest: seq<Event>)
    requires e in events
    ensures multiset(rest) + multiset{e} == multiset(events)
    ensures forall f | f in events && f != e :: f in rest
  {
    var i :| 0 <= i < |events| && events[i] == e;
    assert events == events[..i] + [e] + events[i + 1..];
    events[..i] + events[i + 1..]
  }

  ghost function BadOrder(events: seq<Event>, a: Event, b: Event): (order: seq<Event>)
    requires a in events && b in events && Contradict(a, b)
    ensures multiset(order) == multiset(events)
    ensures |order| >= 2 && order[0] == a && order[1] == b
  {
    [a, b] + Without(Without(events, a), b)
  }
}
