/** Whole histories of the ledger: any sequence of creations, changes, merges, splits and contributions. */
module DossierRuns {
  import opened Results
  import opened DossierLedger
  import opened DossierContribution
  import opened DossierService

  // ----- A contribution pass keeps the invariant -----

  lemma GrownForest(b: Basis, l: Ledger)
    requires ValidBasis(b) && Grown(b, l) && KindsAgree(b.start)
    ensures Forest(l) && KindsAgree(l)
  {
    assert Ranked(l, b.rank);
  }

  lemma IndexedOwnAlone(l: Ledger, byEmail: map<string, string>)
    requires IsIndex(l, byEmail)
    ensures OwnsAlone(l)
  {
    forall a, b | a in l && b in l && a != b && l[a].redirect == None && l[b].redirect == None
      ensures Elements(l[a].emails) !! Elements(l[b].emails)
    {
      forall x | x in Elements(l[a].emails) ensures x !in Elements(l[b].emails) {
        assert x in l[a].emails && byEmail[x] == a;
      }
    }
  }

  lemma GrownWellFormed(b: Basis, l: Ledger)
    requires Grown(b, l) && AllWellFormed(b.start)
    ensures AllWellFormed(l)
  {
    forall id | id in l ensures WellFormed(l[id], id) {
      if id in b.start {
        assert WellFormed(b.start[id], id);
      } else {
        var a := l[id].emails[0];
        assert l[id].emails == [a] && Wanted(b, a);
        WantedIsNormal(b, a);
      }
    }
  }

  lemma WantedIsNormal(b: Basis, address: string)
    requires Wanted(b, address)
    ensures Email(address) == Some(address)
  {
    var x, j :| x in b.notes && 0 <= j < |b.notes[x].values| && MentionAt(b, b.notes[x], j) == Address(address);
    EmailIdempotent(b.notes[x].values[j].1);
  }

  lemma PassedSound(b: Basis, l: Ledger, byEmail: map<string, string>, id: string)
    requires ValidBasis(b) && AllSound(b.start) && Grown(b, l) && id in l && Passed(b, byEmail, l[id], id)
    ensures SoundFacts(l[id].facts, l)
  {
    var gathered: seq<Fact> :| Pass(b, byEmail, l[id], id, gathered);
    forall k | 0 <= k < |gathered| ensures Aimed(gathered[k], b.start)
      && (gathered[k].forEvidence ==> gathered[k].state == Withdrawn) {
      if k < |FactsOf(b.start, id)| {
        assert gathered[k] == FactsOf(b.start, id)[k] && gathered[k] in b.start[id].facts;
      } else {
        assert Mentioned(b, byEmail, gathered[k], id);
      }
    }
    assert SoundFacts(gathered, b.start);
    SettledSound(gathered, b.notes, b.start, l);
  }

  lemma ContributionKeepsInv(b: Basis, l: Ledger, byEmail: map<string, string>)
    requires ValidBasis(b) && Inv(b.start) && Contributes(b, l, byEmail)
    ensures Inv(l)
  {
    hide Grown, Passed, IsIndex, ValidBasis, Resolved, KindsAgree, OwnsAlone, AllWellFormed;
    GrownForest(b, l);
    IndexedOwnAlone(l, byEmail);
    GrownWellFormed(b, l);
    forall id | id in l ensures SoundFacts(l[id].facts, l) {
      PassedSound(b, l, byEmail, id);
    }
  }

  // ----- Operations -----

  datatype Op =
    | Create(id: string, kind: Kind, name: string, aliases: seq<string>, emails: seq<string>, path: string)
    | Edit(id: string, version: nat, change: Change)
    | Combine(id: string, target: string)
    | Separate(id: string, request: SplitRequest, newId: string, path: string)
    | Contribute(basis: Basis, index: map<string, string>)

  ghost predicate Steps(l: Ledger, op: Op, next: Ledger) {
    match op
    case Create(id, kind, name, aliases, emails, path) =>
      && id !in l
      && Make(l, id, kind, name, aliases, emails, path, false).Ok?
      && var made := Make(l, id, kind, name, aliases, emails, path, false).value;
         id in made && next == made[id := Receipted(made[id])]
    case Edit(id, version, change) => FreshFact(l, id, change) && Changed(l, id, version, change) == Ok(next)
    case Combine(id, target) => Mergeable(l, id, target) && next == Merged(l, id, target)
    case Separate(id, r, newId, path) => Splittable(l, id, r) && newId !in l && next == Split(l, id, r, newId, path)
    case Contribute(b, index) => ValidBasis(b) && b.start == l && Contributes(b, next, index)
  }

  lemma StepKeepsInv(l: Ledger, op: Op, next: Ledger)
    requires Inv(l) && Steps(l, op, next)
    ensures Inv(next)
  {
    hide Inv, Make, Changed, Merged, Split, Contributes, ValidBasis;
    match op
    case Create(id, kind, name, aliases, emails, path) =>
      EntityService.MadeKeepsInv(l, id, kind, name, aliases, emails, path);
    case Edit(id, version, change) => ChangeKeepsInv(l, id, version, change);
    case Combine(id, target) => MergeKeepsInv(l, id, target);
    case Separate(id, r, newId, path) => SplitKeepsInv(l, id, r, newId, path);
    case Contribute(b, index) => ContributionKeepsInv(b, next, index);
  }

  // ----- What no history takes back -----

  /** Dossiers stay, their kind stays, and a redirect stays as it is. */
  ghost predicate Persists(l: Ledger, next: Ledger) {
    forall id | id in l ::
      && id in next
      && next[id].kind == l[id].kind
      && (l[id].redirect.Some? ==> next[id].redirect == l[id].redirect)
  }

  lemma StepPersists(l: Ledger, op: Op, next: Ledger)
    requires Steps(l, op, next)
    ensures Persists(l, next)
  {
    hide Make, Changed, Merged, Split, Contributes, Persists;
    match op
    case Create(id, kind, name, aliases, emails, path) => CreatePersists(l, op, next);
    case Edit(id, version, change) => ChangePersists(l, id, version, change);
    case Combine(id, target) => MergePersists(l, id, target);
    case Separate(id, r, newId, path) => SplitPersists(l, id, r, newId, path);
    case Contribute(b, index) => ContributionPersists(b, next, index);
  }

  lemma CreatePersists(l: Ledger, op: Op, next: Ledger)
    requires op.Create? && Steps(l, op, next)
    ensures Persists(l, next)
  {
    hide Normalised, Taken, SortedSet;
  }

  lemma ChangePersists(l: Ledger, id: string, version: nat, change: Change)
    requires Changed(l, id, version, change).Ok?
    ensures Persists(l, Changed(l, id, version, change).value)
  {
    hide Normalised, Taken, SortedSet;
  }

  lemma MergePersists(l: Ledger, id: string, target: string)
    requires Mergeable(l, id, target)
    ensures Persists(l, Merged(l, id, target))
  {
    hide SortedSet, MergeFacts, Retargeted, Hits;
  }

  lemma SplitPersists(l: Ledger, id: string, r: SplitRequest, newId: string, path: string)
    requires Splittable(l, id, r) && newId !in l
    ensures Persists(l, Split(l, id, r, newId, path))
  {
    hide SortedSet, Chosen, LeftBehind, Minus;
  }

  lemma ContributionPersists(b: Basis, next: Ledger, index: map<string, string>)
    requires ValidBasis(b) && Contributes(b, next, index)
    ensures Persists(b.start, next)
  {
    hide Passed, IsIndex, Resolved, Wanted, Taken;
    forall x | x in b.start ensures x in next && next[x].kind == b.start[x].kind
      && next[x].redirect == b.start[x].redirect {
      assert SameIdentity(b.start[x], next[x]);
    }
  }

  ghost predicate Run(ledgers: seq<Ledger>, ops: seq<Op>) {
    && |ledgers| == |ops| + 1
    && forall i: nat | i < |ops| :: Steps(ledgers[i], ops[i], ledgers[i + 1])
  }

  lemma {:induction false} RunKeepsInv(ledgers: seq<Ledger>, ops: seq<Op>, i: nat)
    requires Run(ledgers, ops) && Inv(ledgers[0]) && i < |ledgers|
    ensures Inv(ledgers[i])
  {
    hide Inv, Steps;
    if i > 0 {
      RunKeepsInv(ledgers, ops, i - 1);
      StepKeepsInv(ledgers[i - 1], ops[i - 1], ledgers[i]);
    }
  }

  lemma {:induction false} RunPersists(ledgers: seq<Ledger>, ops: seq<Op>, i: nat, j: nat)
    requires Run(ledgers, ops) && i <= j < |ledgers|
    ensures Persists(ledgers[i], ledgers[j])
  {
    hide Steps;
    if i < j {
      RunPersists(ledgers, ops, i, j - 1);
      StepPersists(ledgers[j - 1], ops[j - 1], ledgers[j]);
    }
  }

  lemma {:induction false} RootsCompose(l: Ledger, later: Ledger, id: string, rank: map<string, nat>,
                                        laterRank: map<string, nat>)
    requires Persists(l, later) && Ranked(l, rank) && Ranked(later, laterRank) && id in l
    ensures Root(later, id, laterRank) == Root(later, Root(l, id, rank), laterRank)
    decreases if id in rank then rank[id] else 0
  {
    if l[id].redirect.Some? {
      RootsCompose(l, later, l[id].redirect.value, rank, laterRank);
    }
  }

  lemma AllRootsCompose(l: Ledger, later: Ledger, id: string)
    requires Persists(l, later) && id in l
    ensures forall rank, laterRank | Ranked(l, rank) && Ranked(later, laterRank) ::
      Root(l, id, rank) in later && Root(later, id, laterRank) == Root(later, Root(l, id, rank), laterRank)
  {
    hide Ranked, Root;
    forall rank, laterRank | Ranked(l, rank) && Ranked(later, laterRank)
      ensures Root(l, id, rank) in later && Root(later, id, laterRank) == Root(later, Root(l, id, rank), laterRank)
    {
      RootsCompose(l, later, id, rank, laterRank);
    }
  }

  /**
   Over every history of operations on an empty ledger: redirects form a forest of one kind per
   tree, no address belongs to two live dossiers, facts are about live ones; and an identity that
   once led to another leads, ever after, wherever that one leads.
   */
  lemma LedgerIsSafe(ledgers: seq<Ledger>, ops: seq<Op>, i: nat, j: nat, id: string)
    requires Run(ledgers, ops) && ledgers[0] == map[] && i <= j < |ledgers| && id in ledgers[i]
    ensures Inv(ledgers[j]) && id in ledgers[j] && ledgers[j][id].kind == ledgers[i][id].kind
    ensures forall rank, laterRank | Ranked(ledgers[i], rank) && Ranked(ledgers[j], laterRank) ::
      var root := Root(ledgers[i], id, rank);
      root in ledgers[j] && Root(ledgers[j], id, laterRank) == Root(ledgers[j], root, laterRank)
  {
    hide Inv, Steps, Root, Ranked;
    EmptyIsSound();
    RunKeepsInv(ledgers, ops, j);
    RunPersists(ledgers, ops, i, j);
    AllRootsCompose(ledgers[i], ledgers[j], id);
  }

  lemma EmptyIsSound()
    ensures Inv(map[])
  {
    assert Ranked(map[], map[]);
  }
}
