/**
 Enrichment suggestions and the review that applies them. Every write is preceded by a durable
 record of what it is to achieve, so an interrupted approval or review can be taken up again.
 `power` is the number of durable writes a call completes before the process is interrupted:
 every contract below holds for every value of it.
 */
module Review {
  import opened Results
  import Seqs

  // ----- The note -----

  datatype Note = Note(front: map<string, string>, body: string, path: string)

  /** A content hash is modelled by the content. */
  datatype Hash = Hash(front: map<string, string>, body: string)

  function HashOf(n: Note): Hash {
    Hash(n.front, n.body)
  }

  predicate Reviewed(n: Note) {
    "reviewed" in n.front && n.front["reviewed"] == "true"
  }

  function Patched(front: map<string, string>, changes: map<string, string>, unset: set<string>): map<string, string> {
    (front - unset) + changes
  }

  // ----- Jobs -----

  datatype Edit = Patch(changes: map<string, string>, unset: set<string>) | Rename(target: string) | Associate

  /** What is kept before any write. The note had `since` versions before the one it was made for. */
  datatype Approval = Approval(index: nat, edit: Edit, ids: set<string>, before: Hash, after: Hash,
                               afterPath: string, body: string, since: nat)

  datatype Decision = Rejection(index: nat) | Approved(approval: Approval) | Dismissal

  datatype JobState = Queued | Running | Suggested | Applying | Applied | Rejected | Stale | Failed

  /** `suggestions` counts the suggestions of the result; a job without a result has none. */
  datatype Job = Job(state: JobState, suggestions: nat, decisions: seq<Decision>, pending: Option<Approval>,
                     noteHash: Hash, path: string)

  function IndexOf(d: Decision): Option<nat> {
    match d
    case Rejection(i) => Some(i)
    case Approved(a) => Some(a.index)
    case Dismissal => None
  }

  predicate Decided(decisions: seq<Decision>, index: nat) {
    exists d | d in decisions :: IndexOf(d) == Some(index)
  }

  predicate Accepted(decisions: seq<Decision>, index: nat) {
    exists d | d in decisions :: d.Approved? && d.approval.index == index
  }

  ghost predicate OncePerIndex(decisions: seq<Decision>) {
    forall i, j | 0 <= i < j < |decisions| ::
      IndexOf(decisions[i]).Some? ==> IndexOf(decisions[i]) != IndexOf(decisions[j])
  }

  ghost predicate InRange(decisions: seq<Decision>, n: nat) {
    forall d | d in decisions :: IndexOf(d).Some? ==> IndexOf(d).value < n
  }

  ghost predicate AllIndexed(decisions: seq<Decision>) {
    forall d | d in decisions :: IndexOf(d).Some?
  }

  /** The note, at its version `since` or later, stood exactly where the approval wanted it. */
  ghost predicate ReachedSince(a: Approval, past: seq<Note>, since: nat) {
    exists k: nat :: since <= k < |past| && HashOf(past[k]) == a.after && past[k].path == a.afterPath
  }

  /**
   An edit made: a patch that changes anything gives every key it changes its new value, takes away
   the keys it unsets, and leaves all others; any other edit leaves every key.
   */
  ghost predicate EditMade(edit: Edit, before: map<string, string>, after: map<string, string>) {
    if edit.Patch? && edit.changes != map[] then
      && (forall k | k in edit.changes :: k in after && after[k] == edit.changes[k])
      && (forall k | k in edit.unset && k !in edit.changes :: k !in after)
      && (forall k | k !in edit.changes && k !in edit.unset :: SameKey(before, after, k))
    else forall k :: SameKey(before, after, k)
  }

  predicate SameKey(a: map<string, string>, b: map<string, string>, k: string) {
    (k in a <==> k in b) && (k in a ==> a[k] == b[k])
  }

  /** Where an edit leaves a note that was at a path. */
  function PathAfter(edit: Edit, path: string): string {
    if edit.Rename? then edit.target else path
  }

  /** What an approval says of the version it was authorised with: its edit, made of that version. */
  ghost predicate Prescribes(a: Approval, n: Note) {
    && a.before == HashOf(n) && a.body == a.after.body == n.body
    && EditMade(a.edit, n.front, a.after.front) && a.afterPath == PathAfter(a.edit, n.path)
  }

  ghost predicate Authorised(a: Approval, past: seq<Note>) {
    a.since < |past| && Prescribes(a, past[a.since])
  }

  lemma EditMadeOnce(edit: Edit, before: map<string, string>, a: map<string, string>, b: map<string, string>)
    requires EditMade(edit, before, a) && EditMade(edit, before, b)
    ensures a == b
  {
    forall k ensures SameKey(a, b, k) {
      if edit.Patch? && edit.changes != map[] && k !in edit.changes && k !in edit.unset {
        assert SameKey(before, a, k) && SameKey(before, b, k);
      } else if !(edit.Patch? && edit.changes != map[]) {
        assert SameKey(before, a, k) && SameKey(before, b, k);
      }
    }
    assert forall k | k in a :: SameKey(a, b, k);
    assert forall k | k in b :: SameKey(a, b, k);
  }

  lemma AfterFrontMade(edit: Edit, front: map<string, string>)
    ensures EditMade(edit, front, AfterFront(edit, front))
  {
  }

  /** The note stood where the approval wanted it, when that was authorised or afterwards. */
  ghost predicate Reached(a: Approval, past: seq<Note>) {
    ReachedSince(a, past, a.since)
  }

  ghost predicate JobOk(job: Job, past: seq<Note>) {
    && OncePerIndex(job.decisions) && InRange(job.decisions, job.suggestions)
    && (forall d | d in job.decisions && d.Approved? :: Reached(d.approval, past) && Authorised(d.approval, past))
    && (job.state == Applying <==> job.pending.Some?)
    && (job.pending.Some? ==>
      Authorised(job.pending.value, past) && past[job.pending.value.since].path == job.path)
    && (job.pending.Some? ==>
      job.pending.value.index < job.suggestions && !Decided(job.decisions, job.pending.value.index))
    && (job.state in {Queued, Running, Failed} ==> job.decisions == [])
    && (job.state in {Suggested, Applying, Applied} ==> AllIndexed(job.decisions))
    && (job.state == Applied ==>
          && (forall i | 0 <= i < job.suggestions :: Decided(job.decisions, i))
          && exists d | d in job.decisions :: d.Approved?)
  }

  // ----- Counting decisions -----

  ghost function Indices(decisions: seq<Decision>): set<nat> {
    set d | d in decisions && IndexOf(d).Some? :: IndexOf(d).value
  }

  lemma {:induction false} IndicesCount(decisions: seq<Decision>)
    requires OncePerIndex(decisions) && AllIndexed(decisions)
    ensures |Indices(decisions)| == |decisions|
  {
    hide IndexOf;
    if decisions != [] {
      var before, last := decisions[..|decisions| - 1], decisions[|decisions| - 1];
      assert decisions == before + [last];
      IndicesCount(before);
      assert last in decisions;
      assert Indices(decisions) == Indices(before) + {IndexOf(last).value};
      forall i | 0 <= i < |before| ensures IndexOf(before[i]) != IndexOf(last) {
        assert decisions[i] == before[i];
      }
    }
  }

  function Below(n: nat): set<nat> {
    if n == 0 then {} else Below(n - 1) + {n - 1}
  }

  lemma {:induction false} BelowCount(n: nat)
    ensures |Below(n)| == n && forall i: nat :: i in Below(n) <==> i < n
  {
    if n > 0 {
      BelowCount(n - 1);
    }
  }

  lemma SubsetOfSameSize(a: set<nat>, b: set<nat>)
    requires a <= b && |a| == |b|
    ensures a == b
  {
    if x :| x in b && x !in a {
      assert |b - {x}| == |b| - 1;
      Seqs.SubsetSize(a, b - {x});
    }
  }

  /** As many decisions as suggestions means: every suggestion is decided, and the other way round. */
  lemma NothingRemainsExactly(decisions: seq<Decision>, n: nat)
    requires OncePerIndex(decisions) && AllIndexed(decisions) && InRange(decisions, n)
    ensures |decisions| <= n
    ensures |decisions| == n <==> forall i | 0 <= i < n :: Decided(decisions, i)
  {
    var all := Below(n);
    IndicesCount(decisions);
    BelowCount(n);
    assert Indices(decisions) <= all;
    Seqs.SubsetSize(Indices(decisions), all);
    if |decisions| == n {
      SubsetOfSameSize(Indices(decisions), all);
      forall i | 0 <= i < n ensures Decided(decisions, i) {
        assert i in Indices(decisions);
      }
    } else if forall i | 0 <= i < n :: Decided(decisions, i) {
      forall i | i in all ensures i in Indices(decisions) {
        assert Decided(decisions, i);
      }
      Seqs.SubsetSize(all, Indices(decisions));
    }
  }

  /** One more decision about an undecided suggestion. */
  lemma Deciding(decisions: seq<Decision>, d: Decision, n: nat)
    requires OncePerIndex(decisions) && AllIndexed(decisions) && InRange(decisions, n)
    requires IndexOf(d).Some? && IndexOf(d).value < n && !Decided(decisions, IndexOf(d).value)
    ensures OncePerIndex(decisions + [d]) && AllIndexed(decisions + [d]) && InRange(decisions + [d], n)
    ensures |decisions| < n
  {
    forall i | 0 <= i < |decisions| ensures IndexOf(decisions[i]) != IndexOf(d) {
      assert decisions[i] in decisions;
    }
    NothingRemainsExactly(decisions, n);
  }

  // ----- The review receipt -----

  datatype ReceiptState = InProgress | Finished

  /** The note had `since` versions before the one the review began with. */
  datatype Receipt = Receipt(request: string, state: ReceiptState, expected: Hash, job: string, selected: seq<nat>,
                             applied: seq<nat>, reviewedHash: Option<Hash>, finalHash: Option<Hash>, since: nat)

  /** A version of the note since `since` was reviewed and had that content. */
  ghost predicate SeenReviewed(past: seq<Note>, since: nat, hash: Hash) {
    exists k: nat :: since <= k < |past| && Reviewed(past[k]) && HashOf(past[k]) == hash
  }

  /** Whatever was approved of the selected suggestions was authorised after the review began. */
  ghost predicate ApprovedSince(job: Job, selected: seq<nat>, since: nat) {
    && (forall d | d in job.decisions && d.Approved? && d.approval.index in selected :: since <= d.approval.since)
    && (job.pending.Some? && job.pending.value.index in selected ==> since <= job.pending.value.since)
  }

  ghost predicate ReceiptOk(r: Receipt, jobs: map<string, Job>, past: seq<Note>) {
    && (forall i, j | 0 <= i < j < |r.applied| :: r.applied[i] != r.applied[j])
    && r.since < |past|
    && (r.selected != [] ==> r.job in jobs && ApprovedSince(jobs[r.job], r.selected, r.since))
    && (forall i | i in r.applied :: i in r.selected && r.job in jobs && Accepted(jobs[r.job].decisions, i))
    && (r.state == Finished ==>
          && (forall i | i in r.selected :: i in r.applied)
          && r.finalHash.Some? && SeenReviewed(past, r.since, r.finalHash.value))
  }

  lemma OneMoreApplied(r: Receipt, jobs: map<string, Job>, past: seq<Note>, index: nat, expected: Hash)
    requires ReceiptOk(r, jobs, past) && index in r.selected && index !in r.applied && r.state == InProgress
    requires r.job in jobs && Accepted(jobs[r.job].decisions, index)
    ensures ReceiptOk(r.(applied := r.applied + [index], expected := expected), jobs, past)
  {
    hide Accepted;
  }

  lemma ReceiptGives(r: Receipt, jobs: map<string, Job>, past: seq<Note>)
    requires ReceiptOk(r, jobs, past)
    ensures r.selected != [] ==> r.job in jobs
    ensures r.state == Finished ==> forall i | i in r.selected :: r.job in jobs && Accepted(jobs[r.job].decisions, i)
  {
    hide Accepted;
  }

  /** An approval was made: a version since it was authorised shows its edit, and otherwise the version before. */
  ghost predicate Made(a: Approval, past: seq<Note>) {
    a.since < |past| && exists k: nat :: a.since <= k < |past| && MadeAt(a, past[a.since], past[k])
  }

  ghost predicate MadeAt(a: Approval, before: Note, after: Note) {
    && EditMade(a.edit, before.front, after.front) && after.body == before.body
    && after.path == PathAfter(a.edit, before.path)
  }

  lemma AuthorisedEarly(a: Approval, past: seq<Note>)
    requires Authorised(a, past)
    ensures a.since < |past|
  {
  }

  lemma ReachedIsMade(a: Approval, past: seq<Note>)
    requires Reached(a, past) && Authorised(a, past)
    ensures Made(a, past)
  {
    var k: nat :| a.since <= k < |past| && HashOf(past[k]) == a.after && past[k].path == a.afterPath;
    assert MadeAt(a, past[a.since], past[k]);
  }

  /**
   A completed review: every selected suggestion was decided exactly once, by an approval that was
   authorised after the review began, and its edit was made of the note since.
   */
  lemma SelectedExactlyOnce(r: Receipt, jobs: map<string, Job>, past: seq<Note>, index: nat)
    requires ReceiptOk(r, jobs, past) && r.state == Finished && index in r.selected && JobOk(jobs[r.job], past)
    ensures exists i | 0 <= i < |jobs[r.job].decisions| ::
              && jobs[r.job].decisions[i].Approved? && jobs[r.job].decisions[i].approval.index == index
              && r.since <= jobs[r.job].decisions[i].approval.since
              && Reached(jobs[r.job].decisions[i].approval, past) && Made(jobs[r.job].decisions[i].approval, past)
              && forall j | 0 <= j < |jobs[r.job].decisions| && j != i ::
                IndexOf(jobs[r.job].decisions[j]) != Some(index)
  {
    hide EditMade, Prescribes, Made;
    var decisions := jobs[r.job].decisions;
    assert index in r.applied && Accepted(decisions, index);
    var d :| d in decisions && d.Approved? && d.approval.index == index;
    var i :| 0 <= i < |decisions| && decisions[i] == d;
    ReachedIsMade(d.approval, past);
    forall j | 0 <= j < |decisions| && j != i ensures IndexOf(decisions[j]) != Some(index) {
      assert IndexOf(decisions[i]) == Some(index);
    }
  }

  // ----- The store -----

  function AfterFront(edit: Edit, front: map<string, string>): map<string, string> {
    if edit.Patch? && edit.changes != map[] then Patched(front, edit.changes, edit.unset) else front
  }

  /** A rejection of one suggestion, or of all that remain. */
  function RejectedJob(job: Job, index: Option<nat>): Job {
    match index
    case None => job.(state := Rejected, decisions := job.decisions + [Dismissal])
    case Some(i) =>
      var decisions := job.decisions + [Rejection(i)];
      job.(decisions := decisions,
           state := if |decisions| != job.suggestions then job.state
                    else if exists d | d in decisions :: d.Approved? then Applied else Rejected)
  }

  /** An applied approval; what remains is stale when the note's date changed. */
  function ApprovedJob(job: Job, approval: Approval, dateChanged: bool): Job {
    var decisions := job.decisions + [Approved(approval)];
    var remaining := job.suggestions - |decisions|;
    job.(decisions := decisions, pending := None, noteHash := approval.after, path := approval.afterPath,
         state := if remaining != 0 && dateChanged then Stale else if remaining != 0 then Suggested else Applied)
  }

  lemma RejectionKeepsJob(job: Job, index: Option<nat>, past: seq<Note>)
    requires JobOk(job, past) && job.state == Suggested
    requires index.Some? ==> index.value < job.suggestions && !Decided(job.decisions, index.value)
    ensures JobOk(RejectedJob(job, index), past)
    ensures index.Some? ==>
      var after := RejectedJob(job, index);
      && after.decisions == job.decisions + [Rejection(index.value)]
      && (after.state == Suggested <==> exists i | 0 <= i < job.suggestions :: !Decided(after.decisions, i))
      && (after.state != Suggested ==>
            after.state == if exists d | d in job.decisions :: d.Approved? then Applied else Rejected)
  {
    if index.Some? {
      assert forall d | d in job.decisions :: d in job.decisions + [Rejection(index.value)];
      Deciding(job.decisions, Rejection(index.value), job.suggestions);
      NothingRemainsExactly(job.decisions + [Rejection(index.value)], job.suggestions);
    }
  }

  lemma ApprovalKeepsJob(job: Job, dateChanged: bool, past: seq<Note>)
    requires JobOk(job, past) && job.state == Applying && Reached(job.pending.value, past)
    ensures JobOk(ApprovedJob(job, job.pending.value, dateChanged), past)
  {
    var d := Approved(job.pending.value);
    Deciding(job.decisions, d, job.suggestions);
    NothingRemainsExactly(job.decisions + [d], job.suggestions);
    assert d in job.decisions + [d];
  }

  function DismissedJob(job: Job): (r: Job)
    ensures r.state == Rejected && job.decisions <= r.decisions
  {
    job.(state := Rejected, decisions := job.decisions + [Dismissal])
  }

  lemma DismissalKeepsJob(job: Job, past: seq<Note>)
    requires JobOk(job, past) && job.state != Applying
    ensures JobOk(DismissedJob(job), past) && DismissedJob(job).pending.None?
    ensures forall d | d in DismissedJob(job).decisions && d.Approved? :: d in job.decisions
  {
    var decisions := job.decisions + [Dismissal];
    forall d | d in decisions ensures d in job.decisions || d == Dismissal {}
  }

  lemma AuthorizationKeepsJob(job: Job, approval: Approval, past: seq<Note>)
    requires JobOk(job, past) && job.state == Suggested
    ensures JobOk(job.(state := Stale), past)
    ensures approval.index < job.suggestions && !Decided(job.decisions, approval.index)
            && Authorised(approval, past) && past[approval.since].path == job.path
            ==> JobOk(job.(pending := Some(approval), state := Applying), past)
  {
  }

  lemma ReachedLater(a: Approval, past: seq<Note>, later: seq<Note>, since: nat)
    requires past <= later
    ensures ReachedSince(a, past, since) ==> ReachedSince(a, later, since)
  {
    if k: nat :| since <= k < |past| && HashOf(past[k]) == a.after && past[k].path == a.afterPath {
      assert later[k] == past[k];
    }
  }

  /** Seen from later on is seen. */
  lemma ReachedEarlier(a: Approval, past: seq<Note>, since: nat, from: nat)
    requires ReachedSince(a, past, from) && since <= from
    ensures ReachedSince(a, past, since)
  {
  }

  lemma JobOkLater(job: Job, past: seq<Note>, later: seq<Note>)
    requires JobOk(job, past) && past <= later
    ensures JobOk(job, later)
  {
    forall d | d in job.decisions && d.Approved? ensures Reached(d.approval, later) {
      ReachedLater(d.approval, past, later, d.approval.since);
    }
    hide EditMade, Reached;
  }

  /** Decisions are only ever added. */
  ghost predicate Grew(before: map<string, Job>, after: map<string, Job>) {
    forall id | id in before :: id in after && before[id].decisions <= after[id].decisions
  }

  lemma ReceiptOkLater(r: Receipt, jobs: map<string, Job>, past: seq<Note>, jobs2: map<string, Job>, past2: seq<Note>)
    requires ReceiptOk(r, jobs, past) && Grew(jobs, jobs2) && past <= past2
    requires r.selected != [] && r.job in jobs2 ==> ApprovedSince(jobs2[r.job], r.selected, r.since)
    ensures ReceiptOk(r, jobs2, past2)
  {
    forall i | i in r.applied ensures Accepted(jobs2[r.job].decisions, i) {
      assert Accepted(jobs[r.job].decisions, i);
      var d :| d in jobs[r.job].decisions && d.Approved? && d.approval.index == i;
      assert d in jobs2[r.job].decisions;
    }
    if r.state == Finished {
      var k: nat :| r.since <= k < |past| && Reviewed(past[k]) && HashOf(past[k]) == r.finalHash.value;
      assert past2[k] == past[k];
    }
  }

  /** What a job has that it did not have before was authorised no earlier than at version `now`. */
  ghost predicate NewlyApproved(before: Option<Job>, after: Job, now: nat) {
    && (forall d | d in after.decisions && d.Approved? ::
          || (before.Some? && d in before.value.decisions)
          || (before.Some? && before.value.pending == Some(d.approval)))
    && (after.pending.Some? ==>
      (before.Some? && before.value.pending == after.pending) || now <= after.pending.value.since)
  }

  lemma StillApprovedSince(before: Option<Job>, after: Job, now: nat, selected: seq<nat>, since: nat)
    requires NewlyApproved(before, after, now) && since <= now
    requires before.Some? ==> ApprovedSince(before.value, selected, since)
    ensures ApprovedSince(after, selected, since)
  {
  }

  /** The same review, whatever has been applied of it so far. */
  predicate SameReview(a: Receipt, b: Receipt) {
    a.request == b.request && a.state == b.state && a.job == b.job && a.selected == b.selected && a.since == b.since
  }

  // ----- How a review ends, and what asking again does -----

  /** The receipt and the jobs of the note, and whether a completion is under way. */
  datatype Ending = Ending(receipt: Receipt, jobs: map<string, Job>, running: bool)

  /** The receipt is completed, a job dismissed, the completion left or cut short, and asked for again. */
  datatype Act = Seal(hash: Hash) | Dismiss(id: string) | Leave | Cut | Ask(request: string)

  predicate Waits(job: Job) {
    job.state in {Suggested, Queued, Stale}
  }

  function Waiting(jobs: map<string, Job>): set<string> {
    set id | id in jobs && Waits(jobs[id])
  }

  predicate Possible(s: Ending, a: Act) {
    match a
    case Seal(_) => s.running && s.receipt.state == InProgress && forall i | i in s.receipt.selected ::
      i in s.receipt.applied
    case Dismiss(id) => s.running && s.receipt.state == Finished && id in s.jobs && Waits(s.jobs[id])
    case Leave => s.running && s.receipt.state == Finished && forall id | id in s.jobs :: !Waits(s.jobs[id])
    case Cut => s.running
    case Ask(_) => !s.running
  }

  /** A request whose receipt is complete returns at once; another one is refused while a review is open. */
  function Next(s: Ending, a: Act): Ending
    requires Possible(s, a)
  {
    match a
    case Seal(hash) => s.(receipt := s.receipt.(state := Finished, finalHash := Some(hash)))
    case Dismiss(id) => s.(jobs := s.jobs[id := DismissedJob(s.jobs[id])])
    case Leave => s.(running := false)
    case Cut => s.(running := false)
    case Ask(request) => s.(running := s.receipt.state == InProgress && request == s.receipt.request)
  }

  function Ended(s: Ending, acts: seq<Act>): Option<Ending>
    decreases |acts|
  {
    if acts == [] then Some(s)
    else
      match Ended(s, acts[..|acts| - 1])
      case None => None
      case Some(t) => if Possible(t, acts[|acts| - 1]) then Some(Next(t, acts[|acts| - 1])) else None
  }

  lemma EndedMore(s: Ending, acts: seq<Act>, t: Ending, a: Act)
    requires Ended(s, acts) == Some(t) && Possible(t, a)
    ensures Ended(s, acts + [a]) == Some(Next(t, a))
  {
    assert (acts + [a])[..|acts|] == acts;
  }

  /** Over every run a job waits afterwards if and only if it waited before and was not dismissed in it. */
  lemma {:induction false} WaitsExactly(s: Ending, acts: seq<Act>, id: string)
    requires Ended(s, acts).Some? && id in s.jobs
    ensures var t := Ended(s, acts).value;
      && id in t.jobs && (Waits(t.jobs[id]) <==> Waits(s.jobs[id]) && Dismiss(id) !in acts)
      && (Waits(t.jobs[id]) ==> t.jobs[id] == s.jobs[id])
    decreases |acts|
  {
    if acts != [] {
      var init, a := acts[..|acts| - 1], acts[|acts| - 1];
      assert acts == init + [a];
      WaitsExactly(s, init, id);
    }
  }

  /** Once the receipt is complete and nobody is at work on it, asking again, any number of times, changes nothing. */
  lemma {:induction false} AskingAgainChangesNothing(s: Ending, acts: seq<Act>)
    requires s.receipt.state == Finished && !s.running && Ended(s, acts).Some?
    ensures Ended(s, acts).value == s
    decreases |acts|
  {
    if acts != [] {
      AskingAgainChangesNothing(s, acts[..|acts| - 1]);
    }
  }

  /**
   A job that waits when the receipt is completed, and is not dismissed before the completion is cut
   short, waits for good: whoever asks again finds the receipt complete.
   */
  lemma CutShortWaitsForGood(s: Ending, acts: seq<Act>, later: seq<Act>, id: string)
    requires id in s.jobs && Waits(s.jobs[id])
    requires Ended(s, acts).Some? && Ended(s, acts).value.receipt.state == Finished && !Ended(s, acts).value.running
    requires Ended(Ended(s, acts).value, later).Some?
    ensures var t := Ended(Ended(s, acts).value, later).value;
      && t.receipt.state == Finished && id in t.jobs
      && (Waits(t.jobs[id]) <==> Dismiss(id) !in acts)
  {
    WaitsExactly(s, acts, id);
    AskingAgainChangesNothing(Ended(s, acts).value, later);
  }

  /** There is such a run, whatever job waits: cut short right after the receipt is complete. */
  lemma AJobIsLeftWaiting(s: Ending, hash: Hash, id: string, later: seq<Act>) returns (acts: seq<Act>)
    requires Possible(s, Seal(hash)) && id in s.jobs && Waits(s.jobs[id])
    ensures Ended(s, acts).Some? && !Ended(s, acts).value.running && Ended(s, acts).value.receipt.state == Finished
    ensures Ended(Ended(s, acts).value, later).Some? ==>
      var t := Ended(Ended(s, acts).value, later).value;
      t.receipt.state == Finished && id in t.jobs && t.jobs[id] == s.jobs[id]
  {
    assert [] + [Seal(hash)] == [Seal(hash)] && [Seal(hash)] + [Cut] == [Seal(hash), Cut];
    assert Ended(s, []) == Some(s);
    EndedMore(s, [], s, Seal(hash));
    EndedMore(s, [Seal(hash)], Next(s, Seal(hash)), Cut);
    acts := [Seal(hash), Cut];
    if Ended(Ended(s, acts).value, later).Some? {
      AskingAgainChangesNothing(Ended(s, acts).value, later);
    }
  }

  /** Every decision about a selected suggestion is on the receipt. */
  predicate NothingMissing(r: Receipt, jobs: map<string, Job>) {
    r.job in jobs && forall d | d in jobs[r.job].decisions && IndexOf(d).Some? && IndexOf(d).value in r.selected ::
      IndexOf(d).value in r.applied
  }

  /**
   The note is the one the receipt expects and unreviewed, it is the one the job's remaining
   suggestions were made for, what is selected and not applied is on offer, and no edit marks the note
   reviewed.
   */
  ghost predicate Smooth(r: Receipt, jobs: map<string, Job>, n: Note, edits: nat -> (Edit, set<string>)) {
    && HashOf(n) == r.expected && !Reviewed(n) && TameEdits(edits)
    && (r.selected != [] ==>
          && NothingMissing(r, jobs) && Current(jobs[r.job], n)
          && forall i | i in r.selected && i !in r.applied :: Offered(jobs[r.job], i))
  }

  ghost predicate TameEdits(edits: nat -> (Edit, set<string>)) {
    forall i :: edits(i).0.Patch? ==> "reviewed" !in edits(i).0.changes
  }

  lemma SmoothExpected(r: Receipt, jobs: map<string, Job>, n: Note, edits: nat -> (Edit, set<string>))
    ensures Smooth(r, jobs, n, edits) ==> HashOf(n) == r.expected
  {
  }

  lemma SmoothOffers(r: Receipt, jobs: map<string, Job>, n: Note, edits: nat -> (Edit, set<string>), index: nat)
    requires index in r.selected && index !in r.applied
    ensures Smooth(r, jobs, n, edits) ==> r.job in jobs && Offered(jobs[r.job], index) && Current(jobs[r.job], n)
  {
  }

  lemma ApprovedIsAccepted(jobs: map<string, Job>, later: map<string, Job>, id: string, a: Approval, dateChanged: bool)
    requires id in jobs && id in later && AfterApproval(jobs[id], a, dateChanged, later[id])
    ensures Approved(a) in later[id].decisions && Accepted(later[id].decisions, a.index)
  {
  }

  /** A tame edit of an unreviewed note leaves it unreviewed. */
  lemma StaysUnreviewed(a: Approval, before: Note, after: Note)
    requires Prescribes(a, before) && IsAt(after, a) && !Reviewed(before)
    requires a.edit.Patch? ==> "reviewed" !in a.edit.changes
    ensures !Reviewed(after)
  {
    assert SameKey(before.front, after.front, "reviewed") || "reviewed" !in after.front;
  }

  /** What remains selected stays on offer after one of them was approved, with the note as that left it. */
  lemma SmoothStays(r: Receipt, jobs: map<string, Job>, shown: Note, edits: nat -> (Edit, set<string>), index: nat,
                    a: Approval, later: map<string, Job>, n: Note, past: seq<Note>)
    requires r.job in jobs && r.job in later && index in r.selected && index !in r.applied
    requires AfterApproval(jobs[r.job], a, false, later[r.job]) && a.index == index && a.edit == edits(index).0
    requires Prescribes(a, shown) && IsAt(n, a) && JobOk(later[r.job], past)
    ensures Smooth(r, jobs, shown, edits) ==>
      Smooth(r.(applied := r.applied + [index], expected := a.after), later, n, edits)
  {
    hide EditMade, Reached, Authorised;
    if Smooth(r, jobs, shown, edits) {
      var next, job := r.(applied := r.applied + [index], expected := a.after), later[r.job];
      StaysUnreviewed2(a, shown, n, edits, index);
      forall d | d in job.decisions && IndexOf(d).Some? && IndexOf(d).value in next.selected
        ensures IndexOf(d).value in next.applied
      {
        assert d in jobs[r.job].decisions || d == Approved(a);
      }
      forall i | i in next.selected && i !in next.applied ensures Offered(job, i) {
        StillOffered(jobs[r.job], a, job, i);
        if job.state == Applied {
          NothingRemainsExactly(job.decisions, job.suggestions);
        }
      }
    }
  }

  lemma StaysUnreviewed2(a: Approval, shown: Note, n: Note, edits: nat -> (Edit, set<string>), index: nat)
    requires Prescribes(a, shown) && IsAt(n, a) && !Reviewed(shown) && TameEdits(edits) && a.edit == edits(index).0
    ensures !Reviewed(n)
  {
    hide EditMade, Prescribes;
    StaysUnreviewed(a, shown, n);
  }

  lemma StillOffered(before: Job, a: Approval, after: Job, i: nat)
    requires AfterApproval(before, a, false, after) && Offered(before, i) && i != a.index
    ensures i < after.suggestions && !Decided(after.decisions, i)
  {
  }

  /** The note is where an approval wants it. */
  predicate IsAt(n: Note, a: Approval) {
    HashOf(n) == a.after && n.path == a.afterPath
  }

  /** A suggestion is on offer. */
  predicate Offered(job: Job, index: nat) {
    job.state == Suggested && index < job.suggestions && !Decided(job.decisions, index)
  }

  /** The note is the one the suggestions were made for, and not reviewed. */
  predicate Current(job: Job, n: Note) {
    HashOf(n) == job.noteHash && n.path == job.path && !Reviewed(n)
  }

  /** An approval on record is made already, or can be made of the note. */
  ghost predicate Workable(a: Approval, path: string, evidence: bool, renamedTo: string, n: Note) {
    && n.body == a.body && !Reviewed(n)
    && (IsAt(n, a) || (
          && HashOf(n) == a.before && n.path == path && evidence
          && EditMade(a.edit, n.front, a.after.front) && a.after.body == a.body
          && a.afterPath == PathAfter(a.edit, path) && (a.edit.Rename? ==> renamedTo == a.edit.target)))
  }

  /**
   One more decision is on record; the job waits on for what remains, with the note as the approval
   left it, unless nothing remains, or its date changed.
   */
  predicate AfterApproval(before: Job, approval: Approval, dateChanged: bool, after: Job) {
    && after.decisions == before.decisions + [Approved(approval)] && after.suggestions == before.suggestions
    && after.pending.None? && after.noteHash == approval.after && after.path == approval.afterPath
    && (after.state == Applied <==> |after.decisions| == after.suggestions)
    && (after.state != Applied ==> after.state == if dateChanged then Stale else Suggested)
  }

  datatype Outcome = Interrupted | Refused | Done

  class Reviews {
    var note: Note
    var jobs: map<string, Job>
    var associations: set<string>
    var receipt: Option<Receipt>
    /** Every version the note ever had: no such list is kept by the program, `since` counts in it. */
    var past: seq<Note>
    /** How often somebody else acted, or something outside stood in the way. */
    ghost var visits: nat

    ghost predicate Valid()
      reads this
    {
      && past != [] && past[|past| - 1] == note
      && (forall id | id in jobs :: JobOk(jobs[id], past))
      && (receipt.Some? ==> ReceiptOk(receipt.value, jobs, past))
    }

    constructor (first: Note)
      ensures Valid() && jobs == map[] && receipt == None
    {
      note, jobs, associations, receipt, past, visits := first, map[], {}, None, [first], 0;
    }

    /** Anything may happen to the file between two steps: a device edits it, moves it, syncs it. */
    method Sync()
      requires Valid()
      modifies `note, `past, `visits
      ensures Valid() && old(past) <= past && old(visits) <= visits
      ensures visits == old(visits) ==> note == old(note) && past == old(past)
    {
      var n: Note := *;
      if n != note {
        Write(n);
        visits := visits + 1;
      }
    }

    method Write(n: Note)
      requires Valid()
      modifies `note, `past
      ensures Valid() && note == n && past == old(past) + [n]
    {
      note, past := n, past + [n];
      forall id | id in jobs ensures JobOk(jobs[id], past) {
        JobOkLater(jobs[id], old(past), past);
      }
      if receipt.Some? {
        ReceiptOkLater(receipt.value, jobs, old(past), jobs, past);
      }
    }

    method SaveJob(id: string, job: Job)
      requires Valid() && JobOk(job, past) && (id in jobs ==> jobs[id].decisions <= job.decisions)
      requires NewlyApproved(if id in jobs then Some(jobs[id]) else None, job, |past| - 1)
      modifies `jobs
      ensures Valid() && jobs == old(jobs)[id := job]
    {
      jobs := jobs[id := job];
      if receipt.Some? {
        if receipt.value.selected != [] && id == receipt.value.job {
          StillApprovedSince(Some(old(jobs)[id]), job, |past| - 1, receipt.value.selected, receipt.value.since);
        }
        ReceiptOkLater(receipt.value, old(jobs), past, jobs, past);
      }
    }

    method Enqueue(id: string)
      requires Valid() && id !in jobs
      modifies `jobs
      ensures Valid() && id in jobs && jobs[id].state == Queued
    {
      SaveJob(id, Job(Queued, 0, [], None, HashOf(note), note.path));
    }

    /** The model's answer: suggestions, a failure, or evidence that went stale meanwhile. */
    method Answer(id: string, suggestions: Option<nat>, stale: bool)
      requires Valid() && id in jobs && jobs[id].state in {Queued, Running, Failed}
      modifies `jobs
      ensures Valid() && jobs.Keys == old(jobs).Keys
      ensures suggestions.Some? && !stale ==> jobs[id].state == Suggested && jobs[id].suggestions == suggestions.value
    {
      var job := jobs[id];
      SaveJob(id, if stale then job.(state := Stale)
                  else if suggestions == None then job.(state := Failed)
                  else job.(state := Suggested, suggestions := suggestions.value));
    }

    method Reject(id: string, index: Option<nat>, power: nat) returns (outcome: Outcome)
      requires Valid()
      modifies `jobs
      ensures Valid()
      ensures var possible := id in old(jobs) && old(jobs)[id].state == Suggested &&
                              (index.Some? ==>
                                index.value < old(jobs)[id].suggestions
                                && !Decided(old(jobs)[id].decisions, index.value));
              && (outcome == Done <==> possible && power > 0)
              && jobs == if outcome == Done then old(jobs)[id := RejectedJob(old(jobs)[id], index)] else old(jobs)
    {
      if id !in jobs || jobs[id].state != Suggested {
        return Refused;
      }
      var job := jobs[id];
      if index.Some? && (index.value >= job.suggestions || Decided(job.decisions, index.value)) {
        return Refused;
      }
      if power == 0 {
        return Interrupted;
      }
      RejectionKeepsJob(job, index, past);
      SaveJob(id, RejectedJob(job, index));
      return Done;
    }

    /** The conditional replacement: it writes only over the content it was shown. */
    method Replace(shown: Note, front: map<string, string>, target: Option<string>, power: nat)
      returns (outcome: Outcome, seen: Note, left: nat)
      requires Valid()
      modifies `note, `past, `visits
      ensures Valid() && old(past) <= past && left <= power <= left + 1 && old(visits) <= visits
      ensures outcome == Done ==>
                note == seen && HashOf(seen) == Hash(front, shown.body) && (target.Some? ==> seen.path == target.value)
      ensures outcome == Done && visits == old(visits) && target.None? ==> seen.path == old(note).path
      ensures outcome != Done ==> seen == shown
      ensures outcome == Interrupted ==> left == 0
      ensures outcome == Refused && visits == old(visits) ==> HashOf(old(note)) != HashOf(shown)
    {
      Sync();
      if HashOf(note) != HashOf(shown) {
        return Refused, shown, power;
      }
      if power == 0 {
        return Interrupted, shown, power;
      }
      Write(Note(front, note.body, if target.Some? then target.value else note.path));
      return Done, note, power - 1;
    }

    /** Bring the note to where the approval wants it, unless it is there already. */
    method Effect(approval: Approval, path: string, evidence: bool, renamedTo: string, power: nat)
      returns (outcome: Outcome, seen: Note, left: nat)
      requires Valid()
      modifies `note, `past, `visits
      ensures Valid() && old(past) <= past && left <= power <= left + 1 && old(visits) <= visits
      ensures outcome == Done ==> ReachedSince(approval, past, |old(past)| - 1)
      ensures outcome == Done && visits == old(visits) ==> IsAt(note, approval)
      ensures outcome == Interrupted ==> left == 0
      ensures outcome == Refused && visits == old(visits) ==> !Workable(approval, path, evidence, renamedTo, old(note))
    {
      hide JobOk, ReceiptOk, EditMade;
      seen, left, outcome := note, power, Refused;
      if seen.body != approval.body || Reviewed(seen) {
        return;
      }
      if !IsAt(seen, approval) {
        if HashOf(seen) != approval.before || seen.path != path || !evidence {
          return;
        }
        if EditMade(approval.edit, seen.front, approval.after.front) {
          AfterFrontMade(approval.edit, seen.front);
          EditMadeOnce(approval.edit, seen.front, approval.after.front, AfterFront(approval.edit, seen.front));
        }
        if approval.edit.Patch? && approval.edit.changes != map[] {
          outcome, seen, left := Replace(seen, Patched(seen.front, approval.edit.changes, approval.edit.unset),
            None, left);
          if outcome != Done {
            return;
          }
        }
        if approval.edit.Rename? {
          outcome, seen, left := Replace(seen, seen.front, Some(renamedTo), left);
          if outcome != Done {
            return;
          }
        }
      }
      assert seen == past[|old(past)| - 1] || seen == past[|past| - 1];
      outcome := if IsAt(seen, approval) then Done else Refused;
    }

    /** The note is where the approval wants it: associate the identities, then take the job out of `Applying`. */
    method Settle(id: string, dateChanged: bool, power: nat) returns (outcome: Outcome, left: nat)
      requires Valid() && id in jobs && jobs[id].state == Applying && Reached(jobs[id].pending.value, past)
      modifies `note, `past, `associations, `jobs, `visits
      ensures Valid() && old(past) <= past && left <= power <= left + 2 && old(visits) <= visits
      ensures visits == old(visits) ==> note == old(note) && past == old(past)
      ensures outcome == Done ==>
                && jobs == old(jobs)[id := ApprovedJob(old(jobs)[id], old(jobs)[id].pending.value, dateChanged)]
                && associations == old(associations) + old(jobs)[id].pending.value.ids
      ensures outcome != Done ==> jobs == old(jobs) && outcome == Interrupted && left == 0
    {
      hide ReceiptOk, ReachedSince, Authorised, HashOf, ApprovedSince, OncePerIndex, InRange, AllIndexed, Decided;
      left := power;
      var job := jobs[id];
      var approval := job.pending.value;
      Sync();
      if left == 0 {
        return Interrupted, left;
      }
      associations, left := associations + approval.ids, left - 1;
      Sync();
      if left == 0 {
        return Interrupted, left;
      }
      assert jobs[id] == job && JobOk(job, past);
      ReachedLater(approval, old(past), past, approval.since);
      ApprovalKeepsJob(job, dateChanged, past);
      SaveJob(id, ApprovedJob(job, approval, dateChanged));
      return Done, left - 1;
    }

    /**
     Carry out the approval on record. The job leaves `Applying` only when this call saw the note
     with exactly the recorded content at the recorded path; until then nothing about the job changes.
     Undisturbed it does so wherever the approval can still be carried out.
     */
    method Finish(id: string, evidence: bool, dateChanged: bool, renamedTo: string, power: nat)
      returns (outcome: Outcome, left: nat)
      requires Valid() && id in jobs && jobs[id].state == Applying
      modifies `note, `past, `associations, `jobs, `visits
      ensures Valid() && old(past) <= past && left <= power <= left + 3 && old(visits) <= visits
      ensures outcome == Done ==>
                && ReachedSince(old(jobs)[id].pending.value, past, |old(past)| - 1)
                && jobs == old(jobs)[id := ApprovedJob(old(jobs)[id], old(jobs)[id].pending.value, dateChanged)]
                && associations == old(associations) + old(jobs)[id].pending.value.ids
      ensures outcome == Done && visits == old(visits) ==> IsAt(note, old(jobs)[id].pending.value)
      ensures outcome != Done ==> jobs == old(jobs)
      ensures outcome == Interrupted ==> left == 0
      ensures outcome == Refused && visits == old(visits) ==>
        !Workable(old(jobs)[id].pending.value, old(jobs)[id].path, evidence, renamedTo, old(note))
    {
      hide ReceiptOk, ReachedSince, Authorised, HashOf, ApprovedSince, OncePerIndex, InRange, AllIndexed, Decided,
        Workable, IsAt;
      var approval := jobs[id].pending.value;
      assert JobOk(jobs[id], past);
      AuthorisedEarly(approval, past);
      var seen;
      outcome, seen, left := Effect(approval, jobs[id].path, evidence, renamedTo, power);
      if outcome != Done {
        return;
      }
      ghost var reached := past;
      ReachedEarlier(approval, past, approval.since, |old(past)| - 1);
      outcome, left := Settle(id, dateChanged, left);
      ReachedLater(approval, reached, past, |old(past)| - 1);
    }

    /**
     Keep the authorization: what it says of the edit is what the edit makes of the note as it is. A
     note or evidence that moved on makes the job stale instead.
     */
    method Authorise(id: string, index: nat, edit: Edit, ids: set<string>, evidence: bool, fits: bool, power: nat)
      returns (outcome: Outcome, approval: Approval, left: nat)
      requires Valid() && id in jobs
      modifies `jobs
      ensures Valid() && Grew(old(jobs), jobs) && left <= power <= left + 1 && jobs.Keys == old(jobs).Keys
      ensures outcome == Done <==>
        Offered(old(jobs)[id], index) && Current(old(jobs)[id], note) && evidence && fits && power > 0
      ensures outcome == Done ==>
                && approval.index == index && approval.ids == ids && approval.since == |past| - 1
                && approval.edit == edit && Prescribes(approval, note)
                && jobs == old(jobs)[id := old(jobs)[id].(pending := Some(approval), state := Applying)]
      ensures outcome == Interrupted ==> left == 0 && jobs == old(jobs)
      ensures outcome == Refused ==>
        jobs == if Offered(old(jobs)[id], index) && !(Current(old(jobs)[id], note) && evidence)
                then old(jobs)[id := old(jobs)[id].(state := Stale)] else old(jobs)
      ensures outcome == Refused ==>
        !(Offered(old(jobs)[id], index) && Current(old(jobs)[id], note) && evidence && fits)
    {
      hide ReceiptOk, EditMade, Reached;
      var job := jobs[id];
      left := power;
      approval := Approval(index, edit, ids, job.noteHash, Hash(AfterFront(edit, note.front), note.body),
                           if edit.Rename? then edit.target else note.path, note.body, |past| - 1);
      AfterFrontMade(edit, note.front);
      assert JobOk(job, past);
      if job.state != Suggested || index >= job.suggestions || Decided(job.decisions, index) {
        return Refused, approval, left;
      }
      AuthorizationKeepsJob(job, approval, past);
      if !evidence || HashOf(note) != job.noteHash || note.path != job.path || Reviewed(note) {
        if left == 0 {
          return Interrupted, approval, left;
        }
        SaveJob(id, job.(state := Stale));
        return Refused, approval, left - 1;
      }
      if !fits {
        return Refused, approval, left;
      }
      if left == 0 {
        return Interrupted, approval, left;
      }
      SaveJob(id, job.(pending := Some(approval), state := Applying));
      return Done, approval, left - 1;
    }

    /**
     One suggestion is authorised on record first, and carried out then. Undisturbed it is refused only
     where the suggestion is not on offer for the note as it is.
     */
    method Approve(id: string, index: nat, edit: Edit, ids: set<string>, evidence: bool, fits: bool,
                   dateChanged: bool, renamedTo: string, power: nat)
      returns (outcome: Outcome, approval: Option<Approval>, left: nat)
      requires Valid()
      modifies `note, `past, `associations, `jobs, `visits
      ensures Valid() && old(past) <= past && Grew(old(jobs), jobs) && jobs.Keys == old(jobs).Keys
      ensures left <= power <= left + 4 && old(visits) <= visits
      ensures outcome == Done ==>
                && id in old(jobs) && Offered(old(jobs)[id], index) && Current(old(jobs)[id], old(note))
                && approval.Some? && approval.value.index == index
                && approval.value.since == |old(past)| - 1 && Reached(approval.value, past)
                && approval.value.edit == edit && Prescribes(approval.value, old(note))
                && Made(approval.value, past)
                && jobs == old(jobs)[id := jobs[id]]
                && AfterApproval(old(jobs)[id], approval.value, dateChanged, jobs[id])
                && associations == old(associations) + ids
      ensures outcome == Done && visits == old(visits) ==> IsAt(note, approval.value)
      ensures outcome == Interrupted ==> left == 0
      ensures outcome == Refused && visits == old(visits) ==>
        !(id in old(jobs) && Offered(old(jobs)[id], index) && Current(old(jobs)[id], old(note)) && evidence && fits
          && (edit.Rename? ==> renamedTo == edit.target))
    {
      hide JobOk, ReceiptOk, Decided, EditMade, Made;
      if id !in jobs {
        return Refused, None, power;
      }
      var kept;
      outcome, kept, left := Authorise(id, index, edit, ids, evidence, fits, power);
      if outcome != Done {
        return outcome, None, left;
      }
      approval := Some(kept);
      outcome, left := Finish(id, evidence, dateChanged, renamedTo, left);
      if outcome == Done {
        assert past[kept.since] == old(note);
        ReachedIsMade(kept, past);
      }
    }

    /** Take an interrupted approval up again. */
    method Resume(id: string, evidence: bool, dateChanged: bool, renamedTo: string, power: nat)
      returns (outcome: Outcome, left: nat)
      requires Valid()
      modifies `note, `past, `associations, `jobs, `visits
      ensures Valid() && old(past) <= past && Grew(old(jobs), jobs) && jobs.Keys == old(jobs).Keys
      ensures left <= power <= left + 3 && old(visits) <= visits
      ensures outcome == Done ==>
                && id in old(jobs) && old(jobs)[id].state == Applying
                && ReachedSince(old(jobs)[id].pending.value, past, |old(past)| - 1)
                && jobs == old(jobs)[id := jobs[id]]
                && AfterApproval(old(jobs)[id], old(jobs)[id].pending.value, dateChanged, jobs[id])
      ensures outcome == Interrupted ==> left == 0
      ensures outcome == Refused && visits == old(visits) ==>
        !(id in old(jobs) && old(jobs)[id].state == Applying
          && Workable(old(jobs)[id].pending.value, old(jobs)[id].path, evidence, renamedTo, old(note)))
    {
      hide ReceiptOk, ReachedSince, Authorised, Workable, Decided;
      if id !in jobs || jobs[id].state != Applying {
        return Refused, power;
      }
      outcome, left := Finish(id, evidence, dateChanged, renamedTo, power);
    }

    /** What other requests may do meanwhile: suggestions are rejected, approved and resumed by hand. */
    method Others()
      requires Valid()
      modifies `note, `past, `associations, `jobs, `visits
      ensures Valid() && old(past) <= past && Grew(old(jobs), jobs) && jobs.Keys == old(jobs).Keys
      ensures old(visits) <= visits
      ensures visits == old(visits) ==> note == old(note) && past == old(past) && jobs == old(jobs)
    {
      hide JobOk, ReceiptOk, Decided;
      var n: int := *;
      while 0 < n
        invariant Valid() && old(past) <= past && Grew(old(jobs), jobs) && jobs.Keys == old(jobs).Keys
        invariant old(visits) <= visits
        invariant visits == old(visits) ==> note == old(note) && past == old(past) && jobs == old(jobs)
      {
        OneOther();
        n := n - 1;
      }
    }

    method OneOther()
      requires Valid()
      modifies `note, `past, `associations, `jobs, `visits
      ensures Valid() && old(past) <= past && Grew(old(jobs), jobs) && jobs.Keys == old(jobs).Keys
      ensures old(visits) < visits
    {
      hide JobOk, ReceiptOk, Decided, Made, Prescribes, ReachedSince, Workable;
      var id: string, index: nat, edit: Edit, ids: set<string>, power: nat := *, *, *, *, *;
      var evidence: bool, fits: bool, dateChanged: bool, renamedTo: string := *, *, *, *;
      visits := visits + 1;
      if
      case true =>
        var which: Option<nat> := *;
        var outcome := Reject(id, which, power);
        RejectionGrows(old(jobs), id, which);
      case true =>
        var outcome, approval, left := Approve(id, index, edit, ids, evidence, fits, dateChanged, renamedTo, power);
      case true =>
        var outcome, left := Resume(id, evidence, dateChanged, renamedTo, power);
      case true =>
        Sync();
    }

    /** What something outside answers; anything unfavourable counts as a visit. */
    method Verdict() returns (favourable: bool)
      modifies `visits
      ensures old(visits) <= visits && (favourable <==> visits == old(visits))
    {
      favourable := *;
      if !favourable {
        visits := visits + 1;
      }
    }

    /** The name a title leads to, which may have changed since it was authorised. */
    method NameFor(edit: Edit) returns (target: string)
      modifies `visits
      ensures old(visits) <= visits && (visits == old(visits) ==> edit.Rename? ==> target == edit.target)
    {
      target := *;
      if edit.Rename? && target != edit.target {
        visits := visits + 1;
      }
    }

    // ----- Completing a review -----

    ghost predicate InReview(request: string)
      reads this
    {
      receipt.Some? && receipt.value.state == InProgress && receipt.value.request == request
    }

    method SaveReceipt(r: Receipt)
      requires Valid() && ReceiptOk(r, jobs, past)
      modifies `receipt
      ensures Valid() && receipt == Some(r)
    {
      receipt := Some(r);
    }

    /** Record a review before anything of it happens, or find the one on record. */
    method Begin(request: string, ifMatch: Hash, jobId: string, selected: seq<nat>, valid: bool, power: nat)
      returns (outcome: Outcome, left: nat)
      requires Valid()
      modifies `receipt
      ensures Valid() && left <= power <= left + 1
      ensures outcome == Done ==> InReview(request)
      ensures old(InReview(request)) ==> outcome == Done && receipt == old(receipt)
      ensures outcome == Done && !old(InReview(request)) ==>
        receipt == Some(Receipt(request, InProgress, HashOf(note), jobId, selected, [], None, None, |past| - 1))
      ensures outcome != Done ==> receipt == old(receipt)
      ensures outcome == Interrupted ==> left == 0
      ensures outcome == Refused <==> !old(InReview(request)) && !old(MayBegin(ifMatch, jobId, selected, valid))
    {
      left := power;
      if receipt.Some? && receipt.value.state == InProgress {
        return if receipt.value.request == request then Done else Refused, left;
      }
      if HashOf(note) != ifMatch || !valid || Reviewed(note) {
        return Refused, left;
      }
      if selected != [] {
        assert selected[0] in selected;
        if jobId !in jobs || jobs[jobId].state != Suggested {
          return Refused, left;
        }
        if exists i | i in selected :: i >= jobs[jobId].suggestions || Decided(jobs[jobId].decisions, i) {
          return Refused, left;
        }
      }
      if left == 0 {
        return Interrupted, left;
      }
      SaveReceipt(Receipt(request, InProgress, HashOf(note), jobId, selected, [], None, None, |past| - 1));
      return Done, left - 1;
    }

    /** No review is open, the note is the one shown and unreviewed, and what is selected is on offer. */
    predicate MayBegin(ifMatch: Hash, jobId: string, selected: seq<nat>, valid: bool)
      reads this
    {
      && (receipt.Some? ==> receipt.value.state != InProgress)
      && HashOf(note) == ifMatch && valid && !Reviewed(note)
      && (selected != [] ==> jobId in jobs && forall i | i in selected :: Offered(jobs[jobId], i))
    }

    /** What is still to be applied can be: it is on offer for the note as the review left it. */
    ghost predicate OnCourse(edits: nat -> (Edit, set<string>))
      reads this
    {
      receipt.Some? && Smooth(receipt.value, jobs, note, edits)
    }

    /** An approval of the job under review was interrupted. */
    predicate Pending()
      reads this
    {
      && receipt.Some? && receipt.value.selected != []
      && receipt.value.job in jobs && jobs[receipt.value.job].state == Applying
    }

    /** Enter on the receipt what the job's decisions already say of the selected suggestions. */
    method Recover(request: string, power: nat) returns (outcome: Outcome, left: nat)
      requires Valid() && InReview(request) && receipt.value.selected != []
      modifies `receipt
      ensures Valid() && InReview(request) && left <= power <= left + 1
      ensures SameReview(receipt.value, old(receipt).value)
      ensures outcome == Done ==>
                forall d | d in jobs[receipt.value.job].decisions && IndexOf(d).Some?
                  && IndexOf(d).value in receipt.value.selected ::
                  IndexOf(d).value in receipt.value.applied
      ensures outcome == Interrupted ==> left == 0
      ensures NothingMissing(old(receipt).value, jobs) ==> outcome != Refused && receipt == old(receipt)
    {
      hide JobOk, Authorised, ReachedSince, EditMade, SeenReviewed, Reviewed;
      left := power;
      var r := receipt.value;
      var decisions := jobs[r.job].decisions;
      for i := 0 to |decisions|
        invariant ReceiptOk(r, jobs, past) && SameReview(r, receipt.value)
        invariant NothingMissing(receipt.value, jobs) ==> r == receipt.value
        invariant forall k | 0 <= k < i && IndexOf(decisions[k]).Some? && IndexOf(decisions[k]).value in r.selected ::
          IndexOf(decisions[k]).value in r.applied
      {
        var index := IndexOf(decisions[i]);
        assert decisions[i] in decisions;
        if index.Some? && index.value in r.selected && index.value !in r.applied {
          // A rejected suggestion has no recorded result, so the review cannot go on.
          if !decisions[i].Approved? {
            return Refused, left;
          }
          assert Accepted(decisions, index.value);
          r := r.(applied := r.applied + [index.value], expected := decisions[i].approval.after);
        }
      }
      if left == 0 {
        return Interrupted, left;
      }
      SaveReceipt(r);
      return Done, left - 1;
    }

    /** Apply the selected suggestions that are not applied yet, keeping the receipt after each. */
    method ApplySelected(request: string, edits: nat -> (Edit, set<string>), power: nat)
      returns (outcome: Outcome, left: nat)
      requires Valid() && InReview(request) && receipt.value.selected != []
      modifies `note, `past, `associations, `jobs, `receipt, `visits
      ensures Valid() && old(past) <= past && InReview(request) && SameReview(receipt.value, old(receipt).value)
      ensures left <= power <= left + 5 * |receipt.value.selected| && old(visits) <= visits
      ensures jobs.Keys == old(jobs).Keys
      ensures outcome == Done ==> forall i | i in receipt.value.selected :: i in receipt.value.applied
      ensures outcome == Interrupted ==> left == 0
      ensures visits == old(visits) && old(OnCourse(edits)) ==>
        outcome != Refused && (outcome == Done ==> OnCourse(edits))
    {
      hide JobOk, ReceiptOk, Smooth;
      left := power;
      ghost var started := receipt.value;
      var selected := receipt.value.selected;
      for k := 0 to |selected|
        invariant Valid() && old(past) <= past && InReview(request) && left <= power <= left + 5 * k
          && SameReview(receipt.value, started) && old(visits) <= visits && jobs.Keys == old(jobs).Keys
        invariant forall j | 0 <= j < k :: selected[j] in receipt.value.applied
        invariant visits == old(visits) && old(OnCourse(edits)) ==> OnCourse(edits)
      {
        if selected[k] in receipt.value.applied {
          continue;
        }
        ghost var made;
        outcome, left, made := ApplyOne(request, selected[k], edits, left);
        if outcome != Done {
          return outcome, left;
        }
      }
      return Done, left;
    }

    /** Apply one selected suggestion, and keep the receipt. */
    method ApplyOne(request: string, index: nat, edits: nat -> (Edit, set<string>), power: nat)
      returns (outcome: Outcome, left: nat, ghost made: Option<Approval>)
      requires Valid() && InReview(request) && index in receipt.value.selected && index !in receipt.value.applied
      modifies `note, `past, `associations, `jobs, `receipt, `visits
      ensures Valid() && old(past) <= past && InReview(request) && SameReview(receipt.value, old(receipt).value)
      ensures left <= power <= left + 5 && old(visits) <= visits && jobs.Keys == old(jobs).Keys
      ensures receipt.value.applied == old(receipt).value.applied + if outcome == Done then [index] else []
      ensures outcome == Done ==> made.Some? && AuthorisedNow(made.value, index, edits(index).0, |old(past)| - 1)
      ensures outcome == Interrupted ==> left == 0
      ensures visits == old(visits) && old(OnCourse(edits)) ==>
        outcome != Refused && (outcome == Done ==> OnCourse(edits))
    {
      hide JobOk, ReceiptOk, Accepted, Decided, Smooth, Prescribes, Made, AfterApproval, Offered, Current;
      left, made := power, None;
      var r := receipt.value;
      Others();
      if HashOf(note) != r.expected {
        SmoothExpected(r, jobs, note, edits);
        return Refused, left, made;
      }
      ghost var shown, known := note, jobs;
      var evidence := Verdict();
      var fits := Verdict();
      var sameDate := Verdict();
      var renamedTo := NameFor(edits(index).0);
      var approval;
      outcome, approval, left := Approve(r.job, index, edits(index).0, edits(index).1, evidence, fits, !sameDate,
        renamedTo, left);
      if outcome != Done {
        SmoothOffers(r, known, shown, edits, index);
        return outcome, left, made;
      }
      ApprovedIsAccepted(known, jobs, r.job, approval.value, !sameDate);
      made := approval;
      if left == 0 {
        return Interrupted, left, made;
      }
      OneMoreApplied(r, jobs, past, index, approval.value.after);
      if visits == old(visits) {
        SmoothStays(r, known, shown, edits, index, approval.value, jobs, note, past);
      }
      SaveReceipt(r.(applied := r.applied + [index], expected := approval.value.after));
      left := left - 1;
    }

    /** An approval of this suggestion with this edit is among the job's decisions, authorised since and made. */
    ghost predicate AuthorisedNow(a: Approval, index: nat, edit: Edit, since: nat)
      reads this
    {
      && receipt.Some? && receipt.value.job in jobs && Approved(a) in jobs[receipt.value.job].decisions
      && a.index == index && a.edit == edit && since <= a.since && Made(a, past)
    }

    /** Mark the note reviewed, keeping beforehand the exact content that will have. */
    method MarkReviewed(request: string, power: nat) returns (outcome: Outcome, hash: Hash, left: nat)
      requires Valid() && InReview(request)
      modifies `note, `past, `receipt, `visits
      ensures Valid() && old(past) <= past && left <= power <= left + 2 && InReview(request) && old(visits) <= visits
      ensures receipt.value == old(receipt).value.(reviewedHash := receipt.value.reviewedHash)
      ensures outcome == Done ==> SeenReviewed(past, |old(past)| - 1, hash)
      ensures outcome == Done ==> receipt.value.reviewedHash == Some(hash)
      ensures outcome == Done && !Reviewed(old(note)) ==>
        && old(receipt).value.expected == HashOf(old(note)) && hash.body == old(note).body
        && forall k | k != "reviewed" :: SameKey(old(note).front, hash.front, k)
      ensures outcome == Interrupted ==> left == 0
      ensures outcome == Refused && visits == old(visits) ==>
        Reviewed(old(note)) || HashOf(old(note)) != old(receipt).value.expected
    {
      hide JobOk, ApprovedSince, Accepted;
      left := power;
      var current := note;
      hash := HashOf(current);
      if Reviewed(current) {
        outcome := if receipt.value.reviewedHash == Some(hash) then Done else Refused;
        return;
      }
      if HashOf(current) != receipt.value.expected {
        return Refused, hash, left;
      }
      var front := current.front["reviewed" := "true"];
      if left == 0 {
        return Interrupted, hash, left;
      }
      SaveReceipt(receipt.value.(reviewedHash := Some(Hash(front, current.body))));
      outcome, current, left := Replace(current, front, None, left - 1);
      hash := HashOf(current);
    }

    /** The review is complete once the note was seen marked, in exactly the content kept for it. */
    method Conclude(request: string, valid: bool, power: nat) returns (outcome: Outcome, left: nat)
      requires Valid() && InReview(request) && forall i | i in receipt.value.selected :: i in receipt.value.applied
      modifies `note, `past, `associations, `jobs, `receipt, `visits
      ensures Valid() && old(past) <= past && receipt.Some? && Grew(old(jobs), jobs) && jobs.Keys == old(jobs).Keys
      ensures left <= power <= left + 3 && old(visits) <= visits
      ensures outcome == Done ==>
                && receipt.value == old(receipt).value.(state := Finished,
                  reviewedHash := receipt.value.reviewedHash, finalHash := receipt.value.finalHash)
                && receipt.value.finalHash.Some? && SeenReviewed(past, |old(past)| - 1, receipt.value.finalHash.value)
                && receipt.value.reviewedHash == receipt.value.finalHash
      ensures outcome == Done && !Reviewed(old(note)) ==>
        && receipt.value.finalHash.value.body == old(note).body
        && forall k | k != "reviewed" :: SameKey(old(note).front, receipt.value.finalHash.value.front, k)
      ensures receipt.value.selected == old(receipt).value.selected && receipt.value.job == old(receipt).value.job
      ensures outcome != Done ==> InReview(request)
      ensures outcome == Interrupted ==> left == 0
      ensures outcome == Refused && visits == old(visits) ==>
        !valid || Reviewed(old(note)) || HashOf(old(note)) != old(receipt).value.expected
    {
      hide JobOk, ApprovedSince, Accepted, SeenReviewed;
      left := power;
      if !valid {
        return Refused, left;
      }
      var hash;
      outcome, hash, left := MarkReviewed(request, left);
      if outcome != Done {
        return;
      }
      ghost var reviewed := past;
      Others();
      SeenReviewedLater(reviewed, past, |old(past)| - 1, receipt.value.since, hash);
      if left == 0 {
        return Interrupted, left;
      }
      SaveReceipt(receipt.value.(state := Finished, finalHash := Some(hash)));
      return Done, left - 1;
    }

    /** What nobody decided is dismissed with the review: a run of dismissals, left or cut short. */
    method DismissRemaining(power: nat) returns (outcome: Outcome, left: nat, ghost acts: seq<Act>)
      requires Valid() && receipt.Some? && receipt.value.state == Finished
      modifies `jobs
      ensures Valid() && left <= power <= left + |Waiting(old(jobs))| && jobs.Keys == old(jobs).Keys
      ensures outcome in {Done, Interrupted} && (outcome == Interrupted ==> left == 0)
      ensures Ended(Ending(receipt.value, old(jobs), true), acts) == Some(Ending(receipt.value, jobs, false))
      ensures outcome == Done <==> |Waiting(old(jobs))| <= power
      ensures outcome == Done ==> forall id | id in jobs :: !Waits(jobs[id])
      ensures outcome == Interrupted ==> Waiting(jobs) != {}
    {
      hide JobOk, ReceiptOk, DismissedJob, Ended;
      left := power;
      ghost var start := Ending(receipt.value, jobs, true);
      acts := [];
      NothingYet(start);
      var todo := jobs.Keys;
      while todo != {}
        invariant todo <= jobs.Keys == old(jobs).Keys
        invariant Valid() && left <= power
        invariant Ended(start, acts) == Some(Ending(receipt.value, jobs, true))
        invariant Waiting(jobs) <= todo && power - left == |Waiting(old(jobs))| - |Waiting(jobs)|
        decreases todo
      {
        var id :| id in todo;
        if Waits(jobs[id]) {
          assert id in Waiting(jobs);
          if left == 0 {
            EndedMore(start, acts, Ending(receipt.value, jobs, true), Cut);
            return Interrupted, left, acts + [Cut];
          }
          assert JobOk(jobs[id], past);
          EndedMore(start, acts, Ending(receipt.value, jobs, true), Dismiss(id));
          DismissalKeepsJob(jobs[id], past);
          assert Waiting(jobs[id := DismissedJob(jobs[id])]) == Waiting(jobs) - {id};
          SaveJob(id, DismissedJob(jobs[id]));
          acts, left := acts + [Dismiss(id)], left - 1;
        }
        todo := todo - {id};
      }
      assert forall id | id in jobs :: Waits(jobs[id]) ==> id in Waiting(jobs);
      EndedMore(start, acts, Ending(receipt.value, jobs, true), Leave);
      return Done, left, acts + [Leave];
    }

    /** The same request was completed before. */
    predicate Completed(request: string)
      reads this
    {
      receipt.Some? && receipt.value.request == request && receipt.value.state == Finished
    }

    /** A fresh review whose selected suggestions were made for the note as it is. */
    ghost predicate Completable(ifMatch: Hash, jobId: string, selected: seq<nat>, valid: bool,
                                edits: nat -> (Edit, set<string>))
      reads this
    {
      && MayBegin(ifMatch, jobId, selected, valid) && TameEdits(edits)
      && (selected != [] ==> Current(jobs[jobId], note))
    }

    /**
     Complete a review. Wherever it is interrupted, the receipt and the jobs stay consistent and
     the same request can be made again; once complete, every selected suggestion is approved, and
     no job of the note waits: unless the review was on record as complete before. Then nothing
     happens, so what an interruption kept from being dismissed then is never dismissed. Undisturbed,
     a fresh review that can be completed is.
     */
    method Complete(request: string, ifMatch: Hash, jobId: string, selected: seq<nat>, valid: bool,
                    edits: nat -> (Edit, set<string>), power: nat) returns (outcome: Outcome, left: nat)
      requires Valid()
      modifies this
      ensures Valid() && old(past) <= past && left <= power && old(visits) <= visits
      ensures outcome == Interrupted ==> left == 0
      ensures receipt.Some? ==> power <= left + 8 + 5 * |receipt.value.selected| + |old(jobs)|
      ensures outcome == Done ==> Completed(request)
      ensures outcome == Done ==> forall i | i in receipt.value.selected ::
                receipt.value.job in jobs && Accepted(jobs[receipt.value.job].decisions, i)
      ensures old(Completed(request)) ==>
        outcome == Done && jobs == old(jobs) && note == old(note) && receipt == old(receipt)
      ensures outcome == Done && !old(Completed(request)) ==>
                && (forall id | id in jobs :: !Waits(jobs[id]))
                && SeenReviewed(past, |old(past)| - 1, receipt.value.finalHash.value)
      ensures !old(Completed(request)) && !old(InReview(request)) ==>
        && (outcome == Done ==> receipt.value.job == jobId && receipt.value.selected == selected)
        && (outcome == Refused && visits == old(visits) ==>
              !old(Completable(ifMatch, jobId, selected, valid, edits)))
    {
      hide JobOk, ReceiptOk, Accepted, Decided, SeenReviewed, ApprovedSince, Ended, Waits, Reviewed, Smooth, Current,
        Offered, TameEdits;
      left := power;
      if receipt.Some? {
        ReceiptGives(receipt.value, jobs, past);
      }
      if Completed(request) {
        return Done, left;
      }
      outcome, left := Begin(request, ifMatch, jobId, selected, valid, left);
      if outcome != Done {
        return;
      }
      if !old(InReview(request)) {
        BeginsSmooth(receipt.value, jobs, note, edits);
      }
      outcome, left := Bring(request, edits, left);
      if outcome != Done {
        return;
      }
      ghost var acts;
      WaitingAtMost(jobs);
      outcome, left, acts := DismissRemaining(left);
      ReceiptGives(receipt.value, jobs, past);
    }

    /** A review on record, up to its completed receipt. */
    method Bring(request: string, edits: nat -> (Edit, set<string>), power: nat) returns (outcome: Outcome, left: nat)
      requires Valid() && InReview(request)
      modifies `note, `past, `associations, `jobs, `receipt, `visits
      ensures Valid() && old(past) <= past && receipt.Some? && jobs.Keys == old(jobs).Keys && old(visits) <= visits
      ensures receipt.value.selected == old(receipt).value.selected && receipt.value.job == old(receipt).value.job
      ensures left <= power <= left + 7 + 5 * |receipt.value.selected|
      ensures outcome == Interrupted ==> left == 0
      ensures outcome == Done ==>
        Completed(request) && receipt.value.finalHash.Some?
        && SeenReviewed(past, |old(past)| - 1, receipt.value.finalHash.value)
      ensures outcome == Refused && visits == old(visits) ==> !old(OnCourse(edits)) || old(Pending())
    {
      hide JobOk, ReceiptOk, Accepted, SeenReviewed, Smooth, Reviewed;
      outcome, left := ApplyAll(request, edits, power);
      if outcome != Done {
        return;
      }
      Others();
      var stillValid := Verdict();
      ghost var before := past;
      SmoothUnreviewed(receipt.value, jobs, note, edits);
      outcome, left := Conclude(request, stillValid, left);
      if outcome == Done {
        SeenReviewedLater(past, past, |before| - 1, |old(past)| - 1, receipt.value.finalHash.value);
      }
    }

    /** Bring about every selected suggestion, those first that an interruption left behind. */
    method ApplyAll(request: string, edits: nat -> (Edit, set<string>), power: nat)
      returns (outcome: Outcome, left: nat)
      requires Valid() && InReview(request)
      modifies `note, `past, `associations, `jobs, `receipt, `visits
      ensures Valid() && old(past) <= past && InReview(request) && SameReview(receipt.value, old(receipt).value)
      ensures left <= power <= left + 4 + 5 * |receipt.value.selected| && old(visits) <= visits
      ensures jobs.Keys == old(jobs).Keys
      ensures outcome == Done ==> forall i | i in receipt.value.selected :: i in receipt.value.applied
      ensures outcome == Interrupted ==> left == 0
      ensures visits == old(visits) && old(OnCourse(edits)) && !old(Pending()) ==>
        outcome != Refused && (outcome == Done ==> OnCourse(edits))
    {
      hide JobOk, ReceiptOk, Accepted, Decided, ApprovedSince, Smooth, Workable, ReachedSince;
      left := power;
      ReceiptGives(receipt.value, jobs, past);
      Others();
      if receipt.value.selected == [] {
        return Done, left;
      }
      if jobs[receipt.value.job].state == Applying {
        var evidence: bool, dateChanged: bool, renamedTo: string := *, *, *;
        outcome, left := Resume(receipt.value.job, evidence, dateChanged, renamedTo, left);
        if outcome != Done {
          return;
        }
        Others();
      }
      SmoothMisses(receipt.value, jobs, note, edits);
      outcome, left := Recover(request, left);
      if outcome != Done {
        return;
      }
      outcome, left := ApplySelected(request, edits, left);
    }
  }

  lemma BeginsSmooth(r: Receipt, jobs: map<string, Job>, n: Note, edits: nat -> (Edit, set<string>))
    requires r.applied == [] && r.expected == HashOf(n) && !Reviewed(n)
    requires r.selected != [] ==> r.job in jobs && forall i | i in r.selected :: Offered(jobs[r.job], i)
    ensures TameEdits(edits) && (r.selected != [] ==> Current(jobs[r.job], n)) ==> Smooth(r, jobs, n, edits)
    ensures r.selected != [] ==> jobs[r.job].state != Applying
  {
    if r.selected != [] {
      assert r.selected[0] in r.selected;
      forall i | i in r.selected ensures !Decided(jobs[r.job].decisions, i) {
        assert Offered(jobs[r.job], i);
      }
    }
  }

  lemma SmoothUnreviewed(r: Receipt, jobs: map<string, Job>, n: Note, edits: nat -> (Edit, set<string>))
    ensures Smooth(r, jobs, n, edits) ==> !Reviewed(n) && HashOf(n) == r.expected
  {
  }

  lemma SmoothMisses(r: Receipt, jobs: map<string, Job>, n: Note, edits: nat -> (Edit, set<string>))
    ensures Smooth(r, jobs, n, edits) && r.selected != [] ==> NothingMissing(r, jobs)
  {
  }

  lemma WaitingAtMost(jobs: map<string, Job>)
    ensures |Waiting(jobs)| <= |jobs|
  {
    Seqs.SubsetSize(Waiting(jobs), jobs.Keys);
  }

  lemma NothingYet(s: Ending)
    ensures Ended(s, []) == Some(s)
  {
  }

  lemma RejectionGrows(jobs: map<string, Job>, id: string, index: Option<nat>)
    ensures id in jobs ==> Grew(jobs, jobs[id := RejectedJob(jobs[id], index)])
  {
  }

  lemma SeenReviewedLater(past: seq<Note>, later: seq<Note>, from: nat, since: nat, hash: Hash)
    requires past <= later && since <= from && SeenReviewed(past, from, hash)
    ensures SeenReviewed(later, since, hash) && SeenReviewed(later, from, hash)
  {
    var k: nat :| from <= k < |past| && Reviewed(past[k]) && HashOf(past[k]) == hash;
    assert later[k] == past[k];
  }
}
