/**
 Promotion of calendar imports. The catalog file is replaced before the mirror's transaction
 commits, and the mirror remembers the signature of the file it was committed with, so a crash
 between any two durable writes is noticed and repaired from the file.
 */
module CalendarArchive {
  import opened Results
  import opened CalendarImport
  import opened CalendarMirror
  import Seqs

  // ----- Durable and volatile state -----

  datatype ReceiptState = Pending | Succeeded | Failed

  datatype Receipt = Receipt(filename: string, content: string, receivedAt: string, state: ReceiptState,
                             eventCount: nat, retryable: bool, dismissed: bool)

  /** What one archived original parses to: events, each with the entries it was found in. */
  type Export = seq<(Event, seq<string>)>

  /** The bounded parser; None when it refuses the bytes. */
  type ExportParser = string -> Option<Export>

  /** A digest is modelled by the text it is taken of. */
  function ImportId(suffix: string, content: string): string {
    suffix + "\0" + content
  }

  /** Everything that survives a crash. A stamp is the signature of one catalog file, 0 of none. */
  datatype Disk = Disk(file: Option<File>, stamp: nat, committed: Content, seen: Option<nat>,
                       receipts: map<string, Receipt>, originals: map<string, string>)

  /** How far a promotion under the archive lock has come. */
  datatype Phase =
    | Idle
    | Staged(work: Content, id: Option<string>)
    | Promoted(work: Content, id: Option<string>)
    | Settled(id: Option<string>)

  datatype State = State(disk: Disk, phase: Phase)

  ghost predicate Fresh(d: Disk) {
    d.seen == Some(d.stamp)
  }

  /** What the archive holds: the mirror while it is current, and what the file stands for if not. */
  ghost function Current(d: Disk): Option<Content> {
    if Fresh(d) then Some(d.committed) else Rebuilt(d.file)
  }

  // ----- Applying one import -----

  datatype Refusal = Unreadable | Transient | OverBudget | Disagrees(conflict: Conflict)

  function Stamped(event: Event, entries: seq<string>, id: string, receipt: Receipt): Event {
    event.(provenance := seq(|entries|, i requires 0 <= i < |entries| =>
                               Provenance(id, receipt.filename, entries[i], receipt.receivedAt)))
  }

  function Contribution(exported: Export, id: string, receipt: Receipt): seq<Event> {
    if exported == [] then []
    else [Stamped(exported[0].0, exported[0].1, id, receipt)] + Contribution(exported[1..], id, receipt)
  }

  ghost function ApplyOne(work: Content, event: Event, id: string, max: nat): Result<Content, Refusal> {
    if event.identity !in work.events && |work.events| + 1 > max then Err(OverBudget)
    else
      match Merge(work.events, event)
      case Err(conflict) => Err(Disagrees(conflict))
      case Ok(events) => Ok(work.(events := events, evidence := work.evidence + PeopleRows(event, event.people, id)))
  }

  ghost function Apply(work: Content, events: seq<Event>, id: string, max: nat): Result<Content, Refusal> {
    if events == [] then Ok(work)
    else
      match Apply(work, events[..|events| - 1], id, max)
      case Err(refusal) => Err(refusal)
      case Ok(next) => ApplyOne(next, events[|events| - 1], id, max)
  }

  /** Conflicts about events of which a newer revision has arrived are dropped, the others kept. */
  function Kept(conflicts: seq<Event>, events: Rows): seq<Event> {
    if conflicts == [] then []
    else
      (if conflicts[0].identity in events && Newer(events[conflicts[0].identity].revision, conflicts[0].revision)
       then [] else [conflicts[0]])
      + Kept(conflicts[1..], events)
  }

  ghost function Imported(d: Disk, id: string, parse: ExportParser, max: nat): Result<Content, Refusal>
    requires id in d.receipts && id in d.originals
  {
    match parse(d.originals[id])
    case None => Err(Unreadable)
    case Some(exported) =>
      match Apply(d.committed, Contribution(exported, id, d.receipts[id]), id, max)
      case Err(refusal) => Err(refusal)
      case Ok(work) => Ok(work.(conflicts := Kept(work.conflicts, work.events)))
  }

  function Undismissed(conflicts: seq<Event>, identity: string, version: string): seq<Event> {
    if conflicts == [] then []
    else
      (if conflicts[0].identity == identity && conflicts[0].semantic == version then [] else [conflicts[0]])
      + Undismissed(conflicts[1..], identity, version)
  }

  // ----- The machine: one durable write, or one crash, at a time -----

  datatype Action =
    | KeepOriginal(id: string, content: string)
    | Accept(id: string, receipt: Receipt)
    | Readmit(id: string)
    | Dismiss(id: string)
    | Refresh
    | Recognise(id: string)
    | Refuse(id: string, refusal: Refusal, max: nat)
    | Count(id: string, max: nat)
    | DropConflict(identity: string, version: string)
    | Promote(rows: seq<Row>)
    | Commit
    | Finish
    | Crash

  /** A receipt that is shown again, in a given state. */
  function TakenUp(receipt: Receipt, state: ReceiptState): Receipt {
    receipt.(dismissed := false, state := state)
  }

  predicate Unclaimed(receipts: map<string, Receipt>, content: string) {
    forall id | id in receipts :: receipts[id].content != content
  }

  /** An import may be applied: the mirror is current, the receipt is known, its original is intact. */
  ghost predicate Ready(d: Disk, id: string) {
    && Fresh(d) && id in d.receipts && id !in d.committed.imports
    && id in d.originals && d.originals[id] == d.receipts[id].content
  }

  ghost predicate Enabled(s: State, a: Action, parse: ExportParser) {
    var d := s.disk;
    match a
    case KeepOriginal(id, content) => s.phase == Idle && id !in d.originals
    case Accept(id, receipt) =>
      && s.phase == Idle && id !in d.receipts && Unclaimed(d.receipts, receipt.content)
      && id in d.originals && d.originals[id] == receipt.content && receipt.state == Pending
    case Readmit(id) => s.phase == Idle && id in d.receipts
    case Dismiss(id) => s.phase == Idle && id in d.receipts && d.receipts[id].state == Failed
    case Refresh => s.phase == Idle && !Fresh(d) && Rebuilt(d.file).Some?
    case Recognise(id) => s.phase == Idle && Fresh(d) && id in d.receipts && id in d.committed.imports
    case Refuse(id, refusal, max) =>
      s.phase == Idle && Ready(d, id) && (refusal == Transient || Imported(d, id, parse, max) == Err(refusal))
    case Count(id, max) => s.phase == Idle && Ready(d, id) && Imported(d, id, parse, max).Ok?
    case DropConflict(_, _) => s.phase == Idle && Fresh(d)
    case Promote(rows) => s.phase.Staged? && RowSet(rows) == s.phase.work.evidence
    case Commit => s.phase.Promoted?
    case Finish => s.phase.Settled? && (s.phase.id.Some? ==> s.phase.id.value in d.receipts)
    case Crash => true
  }

  /** The event count is kept before promotion, so that a recovered receipt still has it. */
  function CountedDisk(d: Disk, id: string, count: nat): Disk
    requires id in d.receipts
  {
    d.(receipts := d.receipts[id := d.receipts[id].(eventCount := count)])
  }

  ghost function CountedWork(d: Disk, id: string, parse: ExportParser, max: nat): Content
    requires Ready(d, id) && Imported(d, id, parse, max).Ok?
  {
    Imported(d, id, parse, max).value.(imports := d.committed.imports + [id])
  }

  ghost function Next(s: State, a: Action, parse: ExportParser): State
    requires Enabled(s, a, parse)
  {
    var d := s.disk;
    match a
    case KeepOriginal(id, content) => s.(disk := d.(originals := d.originals[id := content]))
    case Accept(id, receipt) => s.(disk := d.(receipts := d.receipts[id := receipt]))
    case Readmit(id) => s.(disk := d.(receipts := d.receipts[id := Readmitted(d.receipts[id])]))
    case Dismiss(id) => s.(disk := d.(receipts := d.receipts[id := d.receipts[id].(dismissed := true)]))
    case Refresh => s.(disk := d.(committed := Rebuilt(d.file).value, seen := Some(d.stamp)))
    case Recognise(id) => s.(disk := d.(receipts := d.receipts[id := d.receipts[id].(state := Succeeded)]))
    case Refuse(id, refusal, _) =>
      s.(disk := d.(receipts := d.receipts[id := d.receipts[id].(
                                  state := Failed, retryable := refusal == Transient, dismissed := false)]))
    case Count(id, max) =>
      State(CountedDisk(d, id, |parse(d.originals[id]).value|), Staged(CountedWork(d, id, parse, max), Some(id)))
    case DropConflict(identity, version) =>
      s.(phase := Staged(d.committed.(conflicts := Undismissed(d.committed.conflicts, identity, version)), None))
    case Promote(rows) =>
      State(d.(file := Some(Written(s.phase.work, rows)), stamp := d.stamp + 1), Promoted(s.phase.work, s.phase.id))
    case Commit => State(d.(committed := s.phase.work, seen := Some(d.stamp)), Settled(s.phase.id))
    case Finish =>
      State(if s.phase.id == None then d
            else d.(receipts := d.receipts[s.phase.id.value := d.receipts[s.phase.id.value].(state := Succeeded)]),
            Idle)
    case Crash => s.(phase := Idle)
  }

  /**
   An export that comes again after it was dismissed, or after it failed in a way that can be retried,
   is taken up again.
   */
  function Readmitted(receipt: Receipt): Receipt {
    var retry := receipt.state == Failed && receipt.retryable;
    if receipt.dismissed || retry
    then receipt.(dismissed := false, state := if retry then Pending else receipt.state)
    else receipt
  }

  ghost predicate Runs(s: State, actions: seq<Action>, parse: ExportParser)
    decreases actions
  {
    actions == [] || (Enabled(s, actions[0], parse) && Runs(Next(s, actions[0], parse), actions[1..], parse))
  }

  ghost function After(s: State, actions: seq<Action>, parse: ExportParser): State
    requires Runs(s, actions, parse)
    decreases actions
  {
    if actions == [] then s else After(Next(s, actions[0], parse), actions[1..], parse)
  }

  // ----- The invariant -----

  ghost predicate Distinct<T>(xs: seq<T>) {
    forall i, j | 0 <= i < j < |xs| :: xs[i] != xs[j]
  }

  /** A catalog without evidence has no event that names an addressable person. */
  ghost predicate Covered(c: Content) {
    c.evidence == {} ==> Derived(c.events) == {}
  }

  ghost predicate Sound(c: Content) {
    Storable(c) && Covered(c) && Distinct(c.imports)
  }

  /** The events of the imports, one import after another. */
  ghost function Contributed(d: Disk, imports: seq<string>, parse: ExportParser): seq<Event>
    requires Known(d, imports, parse)
  {
    if imports == [] then []
    else
      var last := |imports| - 1;
      Contributed(d, imports[..last], parse)
      + Contribution(parse(d.originals[imports[last]]).value, imports[last], d.receipts[imports[last]])
  }

  /** Every listed import still has its receipt and its original, and the original parses. */
  ghost predicate Known(d: Disk, imports: seq<string>, parse: ExportParser) {
    forall id | id in imports ::
      id in d.receipts && id in d.originals && parse(d.originals[id]).Some?
  }

  /** `c` is `base` with the events of its further imports merged in, in the order listed. */
  ghost predicate Follows(c: Content, base: Content, d: Disk, parse: ExportParser) {
    && base.imports <= c.imports
    && Known(d, c.imports[|base.imports|..], parse)
    && MergeAll(base.events, Contributed(d, c.imports[|base.imports|..], parse)) == Ok(c.events)
  }

  ghost predicate DiskInv(d: Disk, base: Content, parse: ExportParser) {
    && Rebuilt(d.file).Some?
    && var truth := Rebuilt(d.file).value;
    && Sound(truth) && Follows(truth, base, d, parse)
    && (d.seen.Some? ==> d.seen.value <= d.stamp)
    && (Fresh(d) ==> d.committed == truth)
    && (forall id | id in d.receipts && d.receipts[id].state == Succeeded :: id in truth.imports)
  }

  ghost predicate PhaseInv(s: State, base: Content, parse: ExportParser)
    requires Rebuilt(s.disk.file).Some?
  {
    var d, truth := s.disk, Rebuilt(s.disk.file).value;
    match s.phase
    case Idle => true
    case Staged(work, id) =>
      Fresh(d) && Sound(work) && Follows(work, base, d, parse) && truth.imports <= work.imports && Finishes(id, work, d)
    case Promoted(work, id) => d.file.Some? && truth == work && !Fresh(d) && Finishes(id, work, d)
    case Settled(id) => Fresh(d) && Finishes(id, truth, d)
  }

  ghost predicate Inv(s: State, base: Content, parse: ExportParser) {
    DiskInv(s.disk, base, parse) && PhaseInv(s, base, parse)
  }

  ghost predicate Finishes(id: Option<string>, c: Content, d: Disk) {
    id.Some? ==> id.value in c.imports && id.value in d.receipts
  }

  // ----- Lemmas about one import -----

  lemma {:induction false} ApplyMerges(work: Content, events: seq<Event>, id: string, max: nat)
    requires Apply(work, events, id, max).Ok?
    ensures var next := Apply(work, events, id, max).value;
            && MergeAll(work.events, events) == Ok(next.events)
            && next.imports == work.imports && next.conflicts == work.conflicts && next.aliases == work.aliases
  {
    if events != [] {
      ApplyMerges(work, events[..|events| - 1], id, max);
    }
  }

  lemma {:induction false} ApplyKeepsCover(work: Content, events: seq<Event>, id: string, max: nat)
    requires Apply(work, events, id, max).Ok? && Covered(work) && Storable(work)
    ensures Covered(Apply(work, events, id, max).value) && Storable(Apply(work, events, id, max).value)
  {
    if events != [] {
      var last := events[|events| - 1];
      ApplyKeepsCover(work, events[..|events| - 1], id, max);
      ApplyOneKeepsCover(Apply(work, events[..|events| - 1], id, max).value, last, id, max);
    }
  }

  lemma Unaddressed(event: Event, people: seq<Person>, source: string)
    ensures PeopleRows(event, people, source) == {} <==> forall p | p in people :: p.contact == None
  {
    if p :| p in people && p.contact.Some? {
      assert Row(p.contact.value, EvidenceOf(event, p, source)) in PeopleRows(event, people, source);
    }
  }

  lemma ApplyOneKeepsCover(work: Content, event: Event, id: string, max: nat)
    requires ApplyOne(work, event, id, max).Ok? && Covered(work) && Storable(work)
    ensures Covered(ApplyOne(work, event, id, max).value) && Storable(ApplyOne(work, event, id, max).value)
  {
    var next := ApplyOne(work, event, id, max).value;
    if next.evidence == {} {
      assert PeopleRows(event, event.people, id) == {} && work.evidence == {};
      Unaddressed(event, event.people, id);
      forall known | known in next.events
        ensures PeopleRows(next.events[known], next.events[known].people, "") == {}
      {
        Unaddressed(next.events[known], next.events[known].people, "");
        if known in work.events {
          Unaddressed(work.events[known], work.events[known].people, "");
        }
      }
    }
    forall row | row in PeopleRows(event, event.people, id) ensures Canonical(row.record) {
      var p :| p in event.people && p.contact.Some? && row == Row(p.contact.value, EvidenceOf(event, p, id));
      EvidenceIsCanonical(event, p, id);
    }
  }

  // ----- Which imports are accepted, and what they leave -----

  /** The events of an export as they were parsed. */
  function Parsed(exported: Export): (events: seq<Event>)
    ensures |events| == |exported| && forall i | 0 <= i < |events| :: events[i] == exported[i].0
  {
    seq(|exported|, i requires 0 <= i < |exported| => exported[i].0)
  }

  /** There is room for the identities an import brings, if it brings any. */
  predicate Fits(rows: Rows, events: seq<Event>, max: nat) {
    Identities(events) <= rows.Keys || |rows.Keys + Identities(events)| <= max
  }

  /**
   No event contradicts a stored or earlier one, unless a newer revision came before it, and there is
   room for the identities.
   */
  ghost predicate Accepted(work: Content, exported: Export, max: nat) {
    Tolerated(work.events, Parsed(exported)) && Fits(work.events, Parsed(exported), max)
  }

  lemma FitsMore(rows: Rows, events: seq<Event>, e: Event, max: nat)
    ensures Fits(rows, events + [e], max) <==>
      && Fits(rows, events, max)
      && (e.identity in rows.Keys + Identities(events) || |rows.Keys + Identities(events)| + 1 <= max)
  {
    hide Identities;
    MoreIdentities(events, e);
    Widened(rows.Keys, Identities(events), e.identity);
  }

  lemma MoreIdentities(events: seq<Event>, e: Event)
    ensures Identities(events + [e]) == Identities(events) + {e.identity}
  {
  }

  lemma Widened(held: set<string>, more: set<string>, id: string)
    ensures more + {id} <= held <==> more <= held && id in held
    ensures |held + (more + {id})| == |held + more| + if id in held + more then 0 else 1
  {
    assert held + (more + {id}) == (held + more) + {id};
    if id in held + more {
      assert (held + more) + {id} == held + more;
    }
    if more <= held {
      assert held + more == held;
    }
  }

  lemma {:induction false} AppliesExactly(work: Content, events: seq<Event>, id: string, max: nat)
    ensures Apply(work, events, id, max).Ok? <==> Tolerated(work.events, events) && Fits(work.events, events, max)
  {
    hide Tolerated, Fits, MergeAll;
    if events == [] {
      MergeSucceedsExactly(work.events, []);
      NothingFits(work.events, max);
    } else {
      var before, e := events[..|events| - 1], events[|events| - 1];
      Seqs.SplitLast(events);
      AppliesExactly(work, before, id, max);
      ToleratedSnoc(work.events, events);
      FitsMore(work.events, before, e, max);
      if Apply(work, before, id, max).Ok? {
        ApplyMerges(work, before, id, max);
        IdentitiesKept(work.events, before);
        MergeAllSummarises(work.events, before);
        MergeAcceptsExactly(MergeAll(work.events, before).value, work.events, before, e);
      }
    }
  }

  lemma NothingFits(rows: Rows, max: nat)
    ensures Fits(rows, [], max) && MergeAll(rows, []).Ok?
  {
  }

  /** What an import contributes are its events as parsed, each witnessed for every entry it was found in. */
  lemma {:induction false} ContributionAt(exported: Export, id: string, receipt: Receipt)
    ensures var events := Contribution(exported, id, receipt);
      && |events| == |exported|
      && forall i | 0 <= i < |exported| ::
           && events[i] == exported[i].0.(provenance := events[i].provenance)
           && |events[i].provenance| == |exported[i].1|
           && forall j | 0 <= j < |exported[i].1| ::
                events[i].provenance[j] == Provenance(id, receipt.filename, exported[i].1[j], receipt.receivedAt)
  {
    if exported != [] {
      ContributionAt(exported[1..], id, receipt);
    }
  }

  lemma AmongAlike(rows: Rows, xs: seq<Event>, ys: seq<Event>, id: string)
    requires |xs| == |ys| && forall i | 0 <= i < |xs| :: ys[i] == xs[i].(provenance := ys[i].provenance)
    ensures forall a | Among(a, id, rows, xs) ::
      exists b :: Among(b, id, rows, ys) && b.revision == a.revision && b.semantic == a.semantic
    ensures forall b | Among(b, id, rows, ys) ::
      exists a :: Among(a, id, rows, xs) && b.revision == a.revision && b.semantic == a.semantic
  {
    forall a | Among(a, id, rows, xs)
      ensures exists b :: Among(b, id, rows, ys) && b.revision == a.revision && b.semantic == a.semantic
    {
      if a in xs {
        var i :| 0 <= i < |xs| && xs[i] == a;
        assert ys[i] in ys;
        assert (id in rows && a == rows[id]) || Among(ys[i], id, rows, ys);
      }
      assert id in rows && a == rows[id] ==> Among(a, id, rows, ys);
    }
    forall b | Among(b, id, rows, ys)
      ensures exists a :: Among(a, id, rows, xs) && b.revision == a.revision && b.semantic == a.semantic
    {
      if b in ys {
        var i :| 0 <= i < |ys| && ys[i] == b;
        assert xs[i] in xs;
        assert (id in rows && b == rows[id]) || Among(xs[i], id, rows, xs);
      }
      assert id in rows && b == rows[id] ==> Among(b, id, rows, xs);
    }
  }

  lemma AcceptableAlike(rows: Rows, xs: seq<Event>, ys: seq<Event>, e: Event, f: Event)
    requires |xs| == |ys| && forall i | 0 <= i < |xs| :: ys[i] == xs[i].(provenance := ys[i].provenance)
    requires f == e.(provenance := f.provenance)
    ensures Acceptable(rows, xs, e) <==> Acceptable(rows, ys, f)
  {
    hide Among, Newer;
    AmongAlike(rows, xs, ys, e.identity);
  }

  /** Witnesses have no say in what is accepted. */
  lemma ToleratedAlike(rows: Rows, xs: seq<Event>, ys: seq<Event>)
    requires |xs| == |ys| && forall i | 0 <= i < |xs| :: ys[i] == xs[i].(provenance := ys[i].provenance)
    ensures Tolerated(rows, xs) <==> Tolerated(rows, ys)
    ensures Identities(xs) == Identities(ys)
  {
    hide Acceptable;
    forall j | 0 <= j < |xs| ensures Acceptable(rows, xs[..j], xs[j]) <==> Acceptable(rows, ys[..j], ys[j]) {
      AcceptableAlike(rows, xs[..j], ys[..j], xs[j], ys[j]);
    }
    SameIdentities(xs, ys);
  }

  lemma SameIdentities(xs: seq<Event>, ys: seq<Event>)
    requires |xs| == |ys| && forall i | 0 <= i < |xs| :: ys[i].identity == xs[i].identity
    ensures Identities(xs) == Identities(ys)
  {
    forall i | 0 <= i < |xs| ensures xs[i].identity in Identities(ys) && ys[i].identity in Identities(xs) {
      assert ys[i] in ys && xs[i] in xs;
    }
  }

  lemma ImportedExactly(d: Disk, id: string, parse: ExportParser, max: nat)
    requires id in d.receipts && id in d.originals
    ensures Imported(d, id, parse, max).Ok? <==>
      parse(d.originals[id]).Some? && Accepted(d.committed, parse(d.originals[id]).value, max)
  {
    hide Tolerated, Apply, Contribution;
    if parse(d.originals[id]).Some? {
      var exported := parse(d.originals[id]).value;
      var events := Contribution(exported, id, d.receipts[id]);
      ContributionAt(exported, id, d.receipts[id]);
      ToleratedAlike(d.committed.events, Parsed(exported), events);
      AppliesExactly(d.committed, events, id, max);
    }
  }

  /** The evidence that the people of an import's events are for their contacts. */
  ghost predicate Witnessed(row: Row, events: seq<Event>, id: string) {
    exists e, p :: e in events && p in e.people && p.contact.Some? && row == Row(p.contact.value, EvidenceOf(e, p, id))
  }

  ghost predicate Superseded(c: Event, rows: Rows) {
    c.identity in rows && Newer(rows[c.identity].revision, c.revision)
  }

  /**
   What an accepted import leaves: its identities beside those that were there, under each of them
   what stored row and events say of it, the evidence there was and that of its people, and the
   retained conflicts whose event was not revised past them.
   */
  ghost predicate Took(was: Content, now: Content, events: seq<Event>, id: string) {
    && now.imports == was.imports + [id] && now.aliases == was.aliases
    && Summarises(now.events, was.events, events)
    && (forall row :: row in now.evidence <==> row in was.evidence || Witnessed(row, events, id))
    && (forall c :: c in now.conflicts <==> c in was.conflicts && !Superseded(c, now.events))
  }

  lemma {:induction false} AppliedEvidence(work: Content, events: seq<Event>, id: string, max: nat, row: Row)
    requires Apply(work, events, id, max).Ok?
    ensures row in Apply(work, events, id, max).value.evidence <==> row in work.evidence || Witnessed(row, events, id)
  {
    if events != [] {
      var before, e := events[..|events| - 1], events[|events| - 1];
      Seqs.SplitLast(events);
      AppliedEvidence(work, before, id, max, row);
      WitnessedMore(row, before, e, id);
    }
  }

  lemma WitnessedMore(row: Row, events: seq<Event>, e: Event, id: string)
    ensures Witnessed(row, events + [e], id) <==>
      Witnessed(row, events, id) || row in PeopleRows(e, e.people, id)
  {
    if f, p :|
      f in events + [e] && p in f.people && p.contact.Some? && row == Row(p.contact.value, EvidenceOf(f, p, id)) {
      if f != e {
        assert f in events;
      }
    }
    if f, p :| f in events && p in f.people && p.contact.Some? && row == Row(p.contact.value, EvidenceOf(f, p, id)) {
      assert f in events + [e];
    }
    if row in PeopleRows(e, e.people, id) {
      var p :| p in e.people && p.contact.Some? && row == Row(p.contact.value, EvidenceOf(e, p, id));
      assert e in events + [e];
    }
  }

  lemma {:induction false} KeptExactly(conflicts: seq<Event>, rows: Rows, c: Event)
    ensures c in Kept(conflicts, rows) <==> c in conflicts && !Superseded(c, rows)
  {
    if conflicts != [] {
      KeptExactly(conflicts[1..], rows, c);
    }
  }

  lemma CountedTook(d: Disk, id: string, parse: ExportParser, max: nat)
    requires Ready(d, id) && Imported(d, id, parse, max).Ok?
    ensures Took(d.committed, CountedWork(d, id, parse, max),
                 Contribution(parse(d.originals[id]).value, id, d.receipts[id]), id)
  {
    hide Summarises, Kept, Contribution, Witnessed, Superseded;
    var events := Contribution(parse(d.originals[id]).value, id, d.receipts[id]);
    var now := CountedWork(d, id, parse, max);
    ApplyMerges(d.committed, events, id, max);
    MergeAllSummarises(d.committed.events, events);
    forall row ensures row in now.evidence <==> row in d.committed.evidence || Witnessed(row, events, id) {
      AppliedEvidence(d.committed, events, id, max, row);
    }
    forall c ensures c in now.conflicts <==> c in d.committed.conflicts && !Superseded(c, now.events) {
      KeptExactly(d.committed.conflicts, now.events, c);
    }
  }

  // ----- Bookkeeping never changes what an import contributes -----

  ghost predicate Extends(d: Disk, later: Disk) {
    && (forall id | id in d.receipts ::
          && id in later.receipts
          && later.receipts[id].filename == d.receipts[id].filename
          && later.receipts[id].receivedAt == d.receipts[id].receivedAt)
    && (forall id | id in d.originals :: id in later.originals && later.originals[id] == d.originals[id])
  }

  lemma {:induction false} ContributionStable(exported: Export, id: string, a: Receipt, b: Receipt)
    requires a.filename == b.filename && a.receivedAt == b.receivedAt
    ensures Contribution(exported, id, a) == Contribution(exported, id, b)
  {
    if exported != [] {
      ContributionStable(exported[1..], id, a, b);
    }
  }

  lemma {:induction false} ContributedStable(d: Disk, later: Disk, imports: seq<string>, parse: ExportParser)
    requires Extends(d, later) && Known(d, imports, parse)
    ensures Known(later, imports, parse)
    ensures Contributed(later, imports, parse) == Contributed(d, imports, parse)
  {
    if imports != [] {
      var last := |imports| - 1;
      var id := imports[last];
      ContributedStable(d, later, imports[..last], parse);
      ContributionStable(parse(d.originals[id]).value, id, d.receipts[id], later.receipts[id]);
    }
  }

  lemma FollowsStable(c: Content, base: Content, d: Disk, later: Disk, parse: ExportParser)
    requires Extends(d, later) && Follows(c, base, d, parse)
    ensures Follows(c, base, later, parse)
  {
    ContributedStable(d, later, c.imports[|base.imports|..], parse);
  }

  // ----- Every step keeps the invariant -----

  lemma ImportFollows(c: Content, id: string, max: nat, base: Content, d: Disk, parse: ExportParser, work: Content)
    requires Follows(c, base, d, parse) && Known(d, [id], parse)
    requires Apply(c, Contribution(parse(d.originals[id]).value, id, d.receipts[id]), id, max) == Ok(work)
    ensures Follows(work.(imports := c.imports + [id]), base, d, parse)
  {
    var events := Contribution(parse(d.originals[id]).value, id, d.receipts[id]);
    var since := c.imports[|base.imports|..];
    ApplyMerges(c, events, id, max);
    assert (c.imports + [id])[|base.imports|..] == since + [id];
    assert (since + [id])[..|since|] == since;
    MergeAllConcat(base.events, Contributed(d, since, parse), events);
  }

  lemma ImportSound(c: Content, events: seq<Event>, id: string, max: nat, conflicts: seq<Event>)
    requires Sound(c) && id !in c.imports && Apply(c, events, id, max).Ok?
    ensures Sound(Apply(c, events, id, max).value.(imports := c.imports + [id], conflicts := conflicts))
  {
    ApplyKeepsCover(c, events, id, max);
  }

  lemma CountedFollows(d: Disk, id: string, max: nat, base: Content, parse: ExportParser)
    requires Ready(d, id) && Imported(d, id, parse, max).Ok? && Follows(d.committed, base, d, parse)
    ensures Follows(CountedWork(d, id, parse, max), base, d, parse)
  {
    var applied := Apply(d.committed, Contribution(parse(d.originals[id]).value, id, d.receipts[id]), id, max).value;
    ImportFollows(d.committed, id, max, base, d, parse, applied);
  }

  lemma CountedSound(d: Disk, id: string, max: nat, parse: ExportParser)
    requires Ready(d, id) && Imported(d, id, parse, max).Ok? && Sound(d.committed)
    ensures Sound(CountedWork(d, id, parse, max))
  {
    var events := Contribution(parse(d.originals[id]).value, id, d.receipts[id]);
    ApplyMerges(d.committed, events, id, max);
    ImportSound(d.committed, events, id, max, CountedWork(d, id, parse, max).conflicts);
  }

  lemma CountedDiskKept(d: Disk, id: string, count: nat, base: Content, parse: ExportParser)
    requires DiskInv(d, base, parse) && id in d.receipts
    ensures DiskInv(CountedDisk(d, id, count), base, parse)
  {
    FollowsStable(Rebuilt(d.file).value, base, d, CountedDisk(d, id, count), parse);
  }

  lemma CountKeeps(s: State, id: string, max: nat, base: Content, parse: ExportParser)
    requires Inv(s, base, parse) && Enabled(s, Count(id, max), parse)
    ensures Inv(Next(s, Count(id, max), parse), base, parse)
  {
    hide Rebuilt, Follows, Sound, Apply, Contribution, Kept, Extends;
    var d, count := s.disk, |parse(s.disk.originals[id]).value|;
    CountedFollows(d, id, max, base, parse);
    CountedSound(d, id, max, parse);
    CountedDiskKept(d, id, count, base, parse);
    FollowsStable(CountedWork(d, id, parse, max), base, d, CountedDisk(d, id, count), parse);
  }

  lemma PromoteKeeps(s: State, rows: seq<Row>, base: Content, parse: ExportParser)
    requires Inv(s, base, parse) && Enabled(s, Promote(rows), parse)
    ensures Inv(Next(s, Promote(rows), parse), base, parse)
  {
    var next := Next(s, Promote(rows), parse);
    RebuildRestoresExactly(s.phase.work, rows);
    FollowsStable(s.phase.work, base, s.disk, next.disk, parse);
  }

  /** A promotion, its commit and its receipt, refreshes and refusals: each keeps the invariant. */
  lemma StepKeeps(s: State, a: Action, base: Content, parse: ExportParser)
    requires Inv(s, base, parse) && Enabled(s, a, parse)
    ensures Inv(Next(s, a, parse), base, parse)
  {
    if a.Count? {
      CountKeeps(s, a.id, a.max, base, parse);
    } else if a.Promote? {
      PromoteKeeps(s, a.rows, base, parse);
    } else {
      DiskKept(s, a, base, parse);
      if s.phase.Staged? {
        FollowsStable(s.phase.work, base, s.disk, Next(s, a, parse).disk, parse);
      }
    }
  }

  lemma DiskKept(s: State, a: Action, base: Content, parse: ExportParser)
    requires Inv(s, base, parse) && Enabled(s, a, parse) && !a.Count? && !a.Promote?
    ensures DiskInv(Next(s, a, parse).disk, base, parse)
  {
    hide Rebuilt, Follows, Sound, Imported, Extends;
    var truth, later := Rebuilt(s.disk.file).value, Next(s, a, parse).disk;
    assert later.file == s.disk.file;
    FollowsStable(truth, base, s.disk, later, parse);
  }

  lemma {:induction false} RunKeeps(s: State, actions: seq<Action>, base: Content, parse: ExportParser)
    requires Inv(s, base, parse) && Runs(s, actions, parse)
    ensures Inv(After(s, actions, parse), base, parse)
    decreases actions
  {
    if actions != [] {
      StepKeeps(s, actions[0], base, parse);
      RunKeeps(Next(s, actions[0], parse), actions[1..], base, parse);
    }
  }

  // ----- Safety over whole runs -----

  /** An archive at rest whose file holds `base`: nothing at all, or what an upgrade left. */
  ghost predicate Start(s: State, base: Content) {
    var d := s.disk;
    && s.phase == Idle && Rebuilt(d.file) == Some(base) && Sound(base)
    && (d.seen.Some? ==> d.seen.value <= d.stamp) && (Fresh(d) ==> d.committed == base)
    && forall id | id in d.receipts && d.receipts[id].state == Succeeded :: id in base.imports
  }

  /**
   Whatever is submitted, processed, dismissed and interrupted, in any order: the file can be
   read, a mirror carrying its signature holds its contents, no import is listed twice, every
   succeeded receipt is listed, and the events are the listed imports merged in order.
   */
  lemma ArchiveIsSafe(s: State, actions: seq<Action>, base: Content, parse: ExportParser)
    requires Start(s, base) && Runs(s, actions, parse)
    ensures var d := After(s, actions, parse).disk;
            && Rebuilt(d.file).Some?
            && var truth := Rebuilt(d.file).value;
            && (Fresh(d) ==> d.committed == truth)
            && Distinct(truth.imports)
            && (forall id | id in d.receipts && d.receipts[id].state == Succeeded :: id in truth.imports)
            && Follows(truth, base, d, parse)
  {
    assert base.imports[|base.imports|..] == [];
    RunKeeps(s, actions, base, parse);
  }

  // ----- The order imports arrive in does not matter -----

  ghost predicate SameEvidence(a: Disk, b: Disk, imports: seq<string>) {
    forall id | id in imports ::
      && id in a.receipts && id in b.receipts && id in a.originals && id in b.originals
      && a.originals[id] == b.originals[id]
      && a.receipts[id].filename == b.receipts[id].filename
      && a.receipts[id].receivedAt == b.receipts[id].receivedAt
  }

  lemma {:induction false} ContributedSplit(d: Disk, a: seq<string>, b: seq<string>, parse: ExportParser)
    requires Known(d, a + b, parse)
    ensures Known(d, a, parse) && Known(d, b, parse)
    ensures Contributed(d, a + b, parse) == Contributed(d, a, parse) + Contributed(d, b, parse)
  {
    if b == [] {
      assert a + b == a;
    } else {
      var before, id := b[..|b| - 1], b[|b| - 1];
      Seqs.SplitLast(b);
      Seqs.Assoc(a, before, [id]);
      ContributedSplit(d, a, before, parse);
      Seqs.Assoc(Contributed(d, a, parse), Contributed(d, before, parse),
                 Contribution(parse(d.originals[id]).value, id, d.receipts[id]));
    }
  }

  lemma ContributedOne(d: Disk, id: string, parse: ExportParser)
    requires Known(d, [id], parse)
    ensures Contributed(d, [id], parse) == Contribution(parse(d.originals[id]).value, id, d.receipts[id])
  {
    assert [] + [id] == [id];
  }

  lemma ContributedWithout(d: Disk, before: seq<string>, id: string, behind: seq<string>, parse: ExportParser)
    requires Known(d, before + [id] + behind, parse)
    ensures Known(d, before + behind, parse) && Known(d, [id], parse)
    ensures multiset(Contributed(d, before + [id] + behind, parse)) ==
            multiset(Contributed(d, before + behind, parse)) + multiset(Contributed(d, [id], parse))
  {
    ContributedSplit(d, before + [id], behind, parse);
    ContributedSplit(d, before, [id], parse);
    assert Known(d, before + behind, parse);
    ContributedSplit(d, before, behind, parse);
  }

  lemma PullLast<T(!new)>(xs: seq<T>, ys: seq<T>) returns (before: seq<T>, behind: seq<T>)
    requires multiset(xs) == multiset(ys) && xs != []
    ensures ys == before + [xs[|xs| - 1]] + behind
    ensures multiset(xs[..|xs| - 1]) == multiset(before + behind)
  {
    var id := xs[|xs| - 1];
    assert id in multiset(ys);
    var i :| 0 <= i < |ys| && ys[i] == id;
    before, behind := ys[..i], ys[i + 1..];
    assert xs == xs[..|xs| - 1] + [id];
    assert ys == before + [id] + behind;
    Cancel(multiset(xs[..|xs| - 1]), multiset(before + behind), multiset{id});
  }

  lemma Cancel<T(!new)>(a: multiset<T>, b: multiset<T>, m: multiset<T>)
    requires a + m == b + m
    ensures a == b
  {
    forall x ensures a[x] == b[x] {
      assert (a + m)[x] == a[x] + m[x] && (b + m)[x] == b[x] + m[x];
    }
  }

  lemma {:induction false} ContributedPermuted(a: Disk, b: Disk, xs: seq<string>, ys: seq<string>, parse: ExportParser)
    requires multiset(xs) == multiset(ys) && SameEvidence(a, b, xs)
    requires Known(a, xs, parse) && Known(b, ys, parse)
    ensures multiset(Contributed(a, xs, parse)) == multiset(Contributed(b, ys, parse))
    decreases |xs|
  {
    if xs == [] {
      assert |ys| == |multiset(ys)| == 0;
    } else {
      var first, id := xs[..|xs| - 1], xs[|xs| - 1];
      var before, behind := PullLast(xs, ys);
      ContributedWithout(b, before, id, behind, parse);
      ContributedPermuted(a, b, first, before + behind, parse);
      assert Contributed(a, xs, parse) == Contributed(a, first, parse) + Contributed(b, [id], parse) by {
        ContributedOne(b, id, parse);
        ContributionStable(parse(a.originals[id]).value, id, a.receipts[id], b.receipts[id]);
      }
    }
  }

  /** Two archives that listed the same imports in different orders show the same calendar. */
  lemma ImportOrderDoesNotMatter(a: Disk, b: Disk, x: Content, y: Content, parse: ExportParser)
    requires Follows(x, Nothing, a, parse) && Follows(y, Nothing, b, parse)
    requires multiset(x.imports) == multiset(y.imports) && SameEvidence(a, b, x.imports)
    ensures Agree(x.events, y.events)
  {
    assert x.imports[0..] == x.imports && y.imports[0..] == y.imports;
    ContributedPermuted(a, b, x.imports, y.imports, parse);
    MergeOrderIndependent(Contributed(a, x.imports, parse), Contributed(b, y.imports, parse));
  }

  // ----- The archive itself -----

  lemma {:induction false} RunOneMore(s: State, actions: seq<Action>, a: Action, parse: ExportParser)
    requires Runs(s, actions, parse) && Enabled(After(s, actions, parse), a, parse)
    ensures Runs(s, actions + [a], parse)
    ensures After(s, actions + [a], parse) == Next(After(s, actions, parse), a, parse)
    decreases actions
  {
    if actions == [] {
      assert [a][1..] == [];
      assert [] + [a] == [a];
    } else {
      assert (actions + [a])[1..] == actions[1..] + [a];
      RunOneMore(Next(s, actions[0], parse), actions[1..], a, parse);
    }
  }

  lemma MergeAlone(rows: Rows, event: Event)
    ensures var alone: Rows := if event.identity in rows then map[event.identity := rows[event.identity]] else map[];
            MergeAll(alone, [event]) ==
            match Merge(rows, event)
            case Err(conflict) => Err(conflict)
            case Ok(merged) => Ok(map[event.identity := merged[event.identity]])
  {
    var alone: Rows := if event.identity in rows then map[event.identity := rows[event.identity]] else map[];
    assert [event][..0] == [];
    assert MergeAll(alone, [event]) == Merge(alone, event);
    if Merge(rows, event).Ok? {
      assert alone[event.identity := Merge(rows, event).value[event.identity]] ==
             map[event.identity := Merge(rows, event).value[event.identity]];
    }
  }

  datatype Outcome = Unavailable | Corrupt | Done(receipt: Receipt)

  class Archive {
    const parse: ExportParser
    var file: Option<File>
    var stamp: nat
    var committed: Content
    var seen: Option<nat>
    var receipts: map<string, Receipt>
    var originals: map<string, string>

    ghost function Held(): Disk
      reads this
    {
      Disk(file, stamp, committed, seen, receipts, originals)
    }

    ghost function Rest(): State
      reads this
    {
      State(Held(), Idle)
    }

    constructor (parser: ExportParser)
      ensures parse == parser && Start(Rest(), Nothing)
    {
      parse := parser;
      file, stamp, committed, seen := None, 0, Nothing, None;
      receipts, originals := map[], map[];
    }

    /** Bring the mirror up to the file when their signatures differ. */
    method Catalog() returns (readable: bool, ghost trace: seq<Action>)
      modifies this
      ensures Runs(old(Rest()), trace, parse) && After(old(Rest()), trace, parse) == Rest()
      ensures readable <==> Fresh(Held())
      ensures !readable ==> Held() == old(Held()) && Rebuilt(file) == None
      ensures readable ==> Some(committed) == old(Current(Held()))
      ensures file == old(file) && stamp == old(stamp) && receipts == old(receipts) && originals == old(originals)
    {
      trace := [];
      if seen == Some(stamp) {
        return true, [];
      }
      var transaction := new Mirror(committed);
      readable := transaction.Rebuild(file);
      if readable {
        committed := Content(transaction.events, transaction.conflicts, transaction.aliases,
                             transaction.imports, transaction.evidence);
        seen := Some(stamp);
        RunOneMore(old(Rest()), [], Refresh, parse);
        assert [] + [Refresh] == [Refresh];
        trace := [Refresh];
      }
    }

    method FindReceipt(content: string) returns (found: Option<string>)
      ensures found.Some? ==> found.value in receipts && receipts[found.value].content == content
      ensures found == None ==> Unclaimed(receipts, content)
    {
      var left := receipts.Keys;
      while left != {}
        invariant left <= receipts.Keys
        invariant forall id | id in receipts.Keys - left :: receipts[id].content != content
        decreases left
      {
        var id :| id in left;
        if receipts[id].content == content {
          return Some(id);
        }
        left := left - {id};
      }
      return None;
    }

    /** Keep the original, then its receipt; bytes seen before keep the receipt they have. */
    method Submit(suffix: string, filename: string, data: string, limit: nat, now: string)
      returns (id: Option<string>, ghost trace: seq<Action>)
      modifies this
      ensures Runs(old(Rest()), trace, parse) && After(old(Rest()), trace, parse) == Rest()
      ensures id == None ==> Held() == old(Held())
      ensures var identity := ImportId(suffix, data);
        id == None <==>
          || !(suffix == ".ics" || suffix == ".zip") || |data| > limit
          || (Unclaimed(old(receipts), data) && identity !in old(receipts)
              && identity in old(originals) && old(originals)[identity] != data)
      ensures id.Some? ==>
        if !Unclaimed(old(receipts), data) then
          && id.value in old(receipts) && id.value in receipts && old(receipts)[id.value].content == data
          && originals == old(originals)
          && receipts == old(receipts)[id.value := TakenUp(old(receipts)[id.value], receipts[id.value].state)]
          && (receipts[id.value].state == Pending <==>
                old(receipts)[id.value].state == Pending
                || (old(receipts)[id.value].state == Failed && old(receipts)[id.value].retryable))
          && (receipts[id.value].state != Pending ==> receipts[id.value].state == old(receipts)[id.value].state)
        else if id.value in old(receipts) then
          id.value == ImportId(suffix, data) && receipts == old(receipts) && originals == old(originals)
        else
          && id.value == ImportId(suffix, data) && originals == old(originals)[id.value := data]
          && receipts == old(receipts)[id.value := Receipt(filename, data, now, Pending, 0, false, false)]
      ensures file == old(file) && committed == old(committed) && stamp == old(stamp) && seen == old(seen)
    {
      trace := [];
      if |data| > limit || !(suffix == ".ics" || suffix == ".zip") {
        return None, [];
      }
      var existing := FindReceipt(data);
      if existing.Some? {
        var receipt := receipts[existing.value];
        if receipt.dismissed || (receipt.state == Failed && receipt.retryable) {
          if receipt.state == Failed && receipt.retryable {
            receipt := receipt.(state := Pending);
          }
          receipts := receipts[existing.value := receipt.(dismissed := false)];
          RunOneMore(old(Rest()), [], Readmit(existing.value), parse);
          trace := [] + [Readmit(existing.value)];
        }
        return existing, trace;
      }
      var identity := ImportId(suffix, data);
      if identity in receipts {
        return Some(identity), [];
      }
      if identity in originals && originals[identity] != data {
        return None, [];
      }
      if identity !in originals {
        originals := originals[identity := data];
        RunOneMore(old(Rest()), [], KeepOriginal(identity, data), parse);
        trace := [] + [KeepOriginal(identity, data)];
      }
      var receipt := Receipt(filename, data, now, Pending, 0, false, false);
      receipts := receipts[identity := receipt];
      RunOneMore(old(Rest()), trace, Accept(identity, receipt), parse);
      trace := trace + [Accept(identity, receipt)];
      return Some(identity), trace;
    }
  
    /** Provenance is added to every parsed event before it is merged. */
    method Contribute(exported: Export, id: string, receipt: Receipt) returns (events: seq<Event>)
      ensures events == Contribution(exported, id, receipt)
    {
      events := [];
      for i := 0 to |exported|
        invariant events + Contribution(exported[i..], id, receipt) == Contribution(exported, id, receipt)
      {
        assert exported[i..][1..] == exported[i + 1..];
        events := events + [Stamped(exported[i].0, exported[i].1, id, receipt)];
      }
    }

    method DropSuperseded(transaction: Mirror)
      modifies transaction
      ensures transaction.View() ==
              old(transaction.View()).(conflicts := Kept(old(transaction.conflicts), old(transaction.events)))
    {
      var kept := [];
      var conflicts := transaction.conflicts;
      for i := 0 to |conflicts|
        invariant transaction.View() == old(transaction.View())
        invariant kept + Kept(conflicts[i..], transaction.events) == Kept(conflicts, transaction.events)
      {
        assert conflicts[i..][1..] == conflicts[i + 1..];
        var conflict := conflicts[i];
        if conflict.identity !in transaction.events
        || !Newer(transaction.events[conflict.identity].revision, conflict.revision) {
          kept := kept + [conflict];
        }
      }
      transaction.conflicts := kept;
    }

    /** Merge one import into an open transaction; a refusal leaves the transaction to be rolled back. */
    method Import(transaction: Mirror, events: seq<Event>, id: string, max: nat) returns (refused: Option<Refusal>)
      modifies transaction
      ensures match Apply(old(transaction.View()), events, id, max)
              case Err(refusal) => refused == Some(refusal)
              case Ok(work) => refused == None && transaction.View() == work
      ensures refused != Some(Transient)
    {
      var count := |transaction.events|;
      for i := 0 to |events|
        invariant count == |transaction.events|
        invariant Apply(old(transaction.View()), events[..i], id, max) == Ok(transaction.View())
      {
        var event := events[i];
        ghost var before := transaction.View();
        assert events[..i + 1][..i] == events[..i];
        MergeAlone(transaction.events, event);
        var known := event.identity in transaction.events;
        if !known {
          count := count + 1;
          if count > max {
            ApplyRefuses(old(transaction.View()), events, i + 1, id, max);
            return Some(OverBudget);
          }
        }
        var alone: Rows := if known then map[event.identity := transaction.events[event.identity]] else map[];
        var merged := MergeEvents(alone, [event]);
        if merged.Err? {
          ApplyRefuses(old(transaction.View()), events, i + 1, id, max);
          return Some(Disagrees(merged.error));
        }
        var result := merged.value[event.identity];
        if !known || result != transaction.events[event.identity] {
          transaction.PutEvent(event.identity, result);
        }
        assert transaction.events == before.events[event.identity := result];
        transaction.AddPeople(event, id);
      }
      assert events[..|events|] == events;
      return None;
    }

    /** Stage, promote, commit and settle one import, in that order. */
    method Promotion(transaction: Mirror, id: string, max: nat) returns (ghost rows: seq<Row>)
      requires Ready(Held(), id) && Imported(Held(), id, parse, max) == Ok(transaction.View())
      modifies this, transaction
      ensures RowSet(rows) == Imported(old(Held()), id, parse, max).value.evidence
      ensures Held() == PromotedDisk(old(Held()), id, max, rows, parse)
    {
      ghost var work := CountedWork(Held(), id, parse, max);
      receipts := receipts[id := receipts[id].(eventCount := |parse(originals[id]).value|)];
      var promoted;
      promoted, rows := transaction.WriteCatalog(committed.imports + [id]);
      assert transaction.View() == work;
      file, stamp := Some(promoted), stamp + 1;
      committed := Content(transaction.events, transaction.conflicts, transaction.aliases,
                           transaction.imports, transaction.evidence);
      seen := Some(stamp);
      receipts := receipts[id := receipts[id].(state := Succeeded)];
    }

    /** One receipt was settled, with so many events, and nothing else about receipts and originals changed. */
    twostate predicate OnlySettled(id: string, state: ReceiptState, retryable: bool, count: nat)
      reads this
    {
      && originals == old(originals) && id in old(receipts)
      && var was := old(receipts)[id];
      receipts == old(receipts)[id :=
        if state == Failed then was.(state := Failed, retryable := retryable, dismissed := false, eventCount := count)
        else was.(state := state, eventCount := count)]
    }

    /** Apply an import that is not listed yet. */
    method Attempt(id: string, max: nat, outOfTime: bool) returns (ghost trace: seq<Action>)
      requires Ready(Held(), id)
      modifies this
      ensures Runs(old(Rest()), trace, parse) && After(old(Rest()), trace, parse) == Rest()
      ensures Fresh(Held())
      ensures var exported := parse(old(originals)[id]);
        if !outOfTime && exported.Some? && Accepted(old(committed), exported.value, max) then
          && OnlySettled(id, Succeeded, false, |exported.value|)
          && Took(old(committed), committed, Contribution(exported.value, id, old(receipts)[id]), id)
        else
          && OnlySettled(id, Failed, outOfTime, old(receipts)[id].eventCount)
          && file == old(file) && committed == old(committed) && stamp == old(stamp)
    {
      hide Accepted, Took, Contribution, Apply, Rebuilt;
      ImportedExactly(Held(), id, parse, max);
      var refused: Option<Refusal> := if outOfTime then Some(Transient) else None;
      var parsed := parse(originals[id]);
      var transaction := new Mirror(committed);
      if refused == None && parsed == None {
        refused := Some(Unreadable);
      }
      if refused == None {
        var events := Contribute(parsed.value, id, receipts[id]);
        refused := Import(transaction, events, id, max);
      }
      if refused.Some? {
        trace := [Refuse(id, refused.value, max)];
        RunOneMore(old(Rest()), [], trace[0], parse);
        assert [] + trace == trace;
        receipts := receipts[id := receipts[id].(
                               state := Failed, retryable := refused.value == Transient, dismissed := false)];
      } else {
        DropSuperseded(transaction);
        CountedTook(Held(), id, parse, max);
        ghost var rows := Promotion(transaction, id, max);
        trace := [Count(id, max), Promote(rows), Commit, Finish];
        PromotionRuns(old(Held()), id, max, rows, parse);
      }
    }

    /**
     Process one receipt. An import is taken if and only if there is time, its original parses, and its
     events are accepted beside what the archive holds; then it is promoted, committed and only then
     recorded as succeeded. A refused one changes neither the file nor what the mirror shows, and can
     be retried exactly if time ran out.
     */
    method Process(id: string, max: nat, outOfTime: bool) returns (outcome: Outcome, ghost trace: seq<Action>)
      requires id in receipts && id in originals
      modifies this
      ensures Runs(old(Rest()), trace, parse) && After(old(Rest()), trace, parse) == Rest()
      ensures outcome == Unavailable <==> old(Current(Held())) == None
      ensures !outcome.Done? ==> file == old(file) && stamp == old(stamp) && receipts == old(receipts)
      ensures old(Current(Held())).Some? ==>
        var was, exported := old(Current(Held())).value, parse(old(originals)[id]);
        && Fresh(Held()) && id in receipts
        && (if id in was.imports then
              && outcome == Done(receipts[id]) && OnlySettled(id, Succeeded, false, old(receipts)[id].eventCount)
              && committed == was && file == old(file)
            else if old(originals)[id] != old(receipts)[id].content then
              outcome == Corrupt && committed == was
            else if !outOfTime && exported.Some? && Accepted(was, exported.value, max) then
              && outcome == Done(receipts[id])
              && OnlySettled(id, Succeeded, false, |exported.value|)
              && Took(was, committed, Contribution(exported.value, id, old(receipts)[id]), id)
            else
              && outcome == Done(receipts[id])
              && OnlySettled(id, Failed, outOfTime, old(receipts)[id].eventCount)
              && file == old(file) && stamp == old(stamp) && committed == was)
    {
      hide Accepted, Took, Contribution, Apply, Rebuilt;
      var readable;
      readable, trace := Catalog();
      if !readable {
        return Unavailable, trace;
      }
      if id in committed.imports {
        RunOneMore(old(Rest()), trace, Recognise(id), parse);
        trace := trace + [Recognise(id)];
        receipts := receipts[id := receipts[id].(state := Succeeded)];
        return Done(receipts[id]), trace;
      }
      if originals[id] != receipts[id].content {
        return Corrupt, trace;
      }
      ghost var attempt := Attempt(id, max, outOfTime);
      RunsConcat(old(Rest()), trace, attempt, parse);
      return Done(receipts[id]), trace + attempt;
    }
  }

  lemma {:induction false} RunsConcat(s: State, a: seq<Action>, b: seq<Action>, parse: ExportParser)
    requires Runs(s, a, parse) && Runs(After(s, a, parse), b, parse)
    ensures Runs(s, a + b, parse) && After(s, a + b, parse) == After(After(s, a, parse), b, parse)
    decreases a
  {
    if a == [] {
      assert a + b == b;
    } else {
      assert (a + b)[1..] == a[1..] + b;
      RunsConcat(Next(s, a[0], parse), a[1..], b, parse);
    }
  }

  /** What a completed promotion leaves on disk. */
  ghost function PromotedDisk(d: Disk, id: string, max: nat, rows: seq<Row>, parse: ExportParser): Disk
    requires Ready(d, id) && Imported(d, id, parse, max).Ok?
  {
    var work := CountedWork(d, id, parse, max);
    var receipt := d.receipts[id].(eventCount := |parse(d.originals[id]).value|, state := Succeeded);
    Disk(Some(Written(work, rows)), d.stamp + 1, work, Some(d.stamp + 1), d.receipts[id := receipt], d.originals)
  }

  lemma PromotionRuns(d: Disk, id: string, max: nat, rows: seq<Row>, parse: ExportParser)
    requires Ready(d, id) && Imported(d, id, parse, max).Ok?
    requires RowSet(rows) == Imported(d, id, parse, max).value.evidence
    ensures Runs(State(d, Idle), [Count(id, max), Promote(rows), Commit, Finish], parse)
    ensures After(State(d, Idle), [Count(id, max), Promote(rows), Commit, Finish], parse) ==
            State(PromotedDisk(d, id, max, rows, parse), Idle)
  {
    hide Imported, Rebuilt, Written, ImportId;
    var s0 := State(d, Idle);
    var s1 := Next(s0, Count(id, max), parse);
    var s2 := Next(s1, Promote(rows), parse);
    var s3 := Next(s2, Commit, parse);
    RunFirst(s3, Finish, [], parse);
    RunFirst(s2, Commit, [Finish], parse);
    RunFirst(s1, Promote(rows), [Commit, Finish], parse);
    RunFirst(s0, Count(id, max), [Promote(rows), Commit, Finish], parse);
    assert Next(s3, Finish, parse).disk.receipts == PromotedDisk(d, id, max, rows, parse).receipts;
  }

  lemma RunFirst(s: State, a: Action, rest: seq<Action>, parse: ExportParser)
    requires Enabled(s, a, parse) && Runs(Next(s, a, parse), rest, parse)
    ensures Runs(s, [a] + rest, parse) && After(s, [a] + rest, parse) == After(Next(s, a, parse), rest, parse)
  {
  }

  /** A refusal at one event is the refusal of the whole import. */
  lemma {:induction false} ApplyRefuses(work: Content, events: seq<Event>, upto: nat, id: string, max: nat)
    requires upto <= |events| && Apply(work, events[..upto], id, max).Err?
    ensures Apply(work, events, id, max) == Apply(work, events[..upto], id, max)
    decreases |events| - upto
  {
    if upto == |events| {
      assert events[..upto] == events;
    } else {
      assert events[..upto + 1][..upto] == events[..upto];
      ApplyRefuses(work, events, upto + 1, id, max);
    }
  }
}
