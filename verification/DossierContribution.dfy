/**
 Contributions of reviewed notes to the dossiers: who a note mentions, the metadata facts that
 follow, and the withdrawal and return of facts with the note version that supports them.
 */
module DossierContribution {
  import opened Results
  import opened DossierLedger
  import NoteLinks

  /** A reviewed note; `values` are the strings in its frontmatter lists, with their keys. */
  datatype Note = Note(id: string, title: string, path: string, hash: string, values: seq<(string, string)>)

  type Notes = map<string, Note>

  // ----- What a frontmatter value mentions -----

  datatype Mention = Link(path: string) | Address(address: string) | NoMention

  function BeforeBar(s: string): string {
    if s == [] || s[0] == '|' then [] else [s[0]] + BeforeBar(s[1..])
  }

  function MentionOf(key: string, value: string, fields: set<string>): Mention {
    if |value| >= 4 && value[..2] == "[[" && value[|value| - 2..] == "]]"
    then Link(NoteLinks.WithoutMd(BeforeBar(value[2..|value| - 2])))
    else if key in fields && Email(value).Some? then Address(Email(value).value)
    else NoMention
  }

  /** The address index: every address of an unredirected dossier, and nothing else. */
  ghost predicate IsIndex(l: Ledger, byEmail: map<string, string>) {
    && (forall a | a in byEmail :: byEmail[a] in l && l[byEmail[a]].redirect == None && a in l[byEmail[a]].emails)
    && (forall id, a | id in l && a in l[id].emails && l[id].redirect == None :: a in byEmail && byEmail[a] == id)
  }

  ghost predicate IsPathIndex(l: Ledger, byPath: map<string, string>) {
    && (forall p | p in byPath :: byPath[p] in l && NoteLinks.WithoutMd(l[byPath[p]].path) == p)
    && (forall id | id in l ::
      NoteLinks.WithoutMd(l[id].path) in byPath && byPath[NoteLinks.WithoutMd(l[id].path)] == id)
  }

  /** Everything a pass reads of the ledger it starts from. */
  datatype Basis = Basis(start: Ledger, byPath: map<string, string>, rank: map<string, nat>,
                         notes: Notes, fields: set<string>, suppressed: set<string>)

  ghost predicate ValidBasis(b: Basis) {
    IsPathIndex(b.start, b.byPath) && Ranked(b.start, b.rank)
  }

  ghost function Reached(b: Basis, byEmail: map<string, string>, m: Mention): Option<string>
    requires ValidBasis(b)
  {
    match m
    case Link(p) => if p in b.byPath then Some(Root(b.start, b.byPath[p], b.rank)) else None
    case Address(a) => if a in byEmail then Some(byEmail[a]) else None
    case NoMention => None
  }

  ghost predicate Unretired(b: Basis, id: string) {
    id in b.start ==> !b.start[id].retired
  }

  ghost function MentionAt(b: Basis, note: Note, j: nat): Mention
    requires j < |note.values|
  {
    MentionOf(note.values[j].0, note.values[j].1, b.fields)
  }

  ghost predicate Mentions(b: Basis, byEmail: map<string, string>, note: Note, id: string)
    requires ValidBasis(b)
  {
    && Unretired(b, id)
    && exists j | 0 <= j < |note.values| ::
         Reached(b, byEmail, MentionAt(b, note, j)) == Some(id)
  }

  ghost predicate Owned(b: Basis, byEmail: map<string, string>, m: Mention) {
    m.Address? ==> m.address in byEmail || m.address in b.suppressed
  }

  /** Every address a note mentions has an owner, or is suppressed. */
  ghost predicate Resolved(b: Basis, byEmail: map<string, string>, note: Note, upto: nat)
    requires upto <= |note.values|
  {
    forall j | 0 <= j < upto :: Owned(b, byEmail, MentionAt(b, note, j))
  }

  ghost predicate Wanted(b: Basis, address: string) {
    exists x, j | x in b.notes && 0 <= j < |b.notes[x].values| :: MentionAt(b, b.notes[x], j) == Address(address)
  }

  // ----- Metadata facts and their evidence -----

  function MetaId(note: Note, id: string): FactId {
    Metadata(note.id, note.hash, id)
  }

  function MetaFact(note: Note, id: string): Fact {
    Fact(MetaId(note, id), "mentioned", note.title, None, Confirmed, false,
         Evidence(Some(note.id), note.hash, note.path, ""), None)
  }

  predicate Supported(f: Fact, notes: Notes) {
    f.evidence.note.Some? && f.evidence.note.value in notes && notes[f.evidence.note.value].hash == f.evidence.noteHash
  }

  /** A fact after its evidence was looked up among the current reviewed notes. */
  function Settled(f: Fact, notes: Notes): Fact {
    if f.evidence.note == None then f
    else if !Supported(f, notes) then
      if f.state == Confirmed then f.(state := Withdrawn, forEvidence := true) else f
    else
      var g := if f.state == Withdrawn && f.forEvidence then f.(state := Confirmed, forEvidence := false) else f;
      if g.state == Confirmed then g.(evidence := g.evidence.(path := notes[g.evidence.note.value].path)) else g
  }

  function SettledAll(facts: seq<Fact>, notes: Notes): (r: seq<Fact>)
    ensures |r| == |facts|
  {
    seq(|facts|, i requires 0 <= i < |facts| => Settled(facts[i], notes))
  }

  function Flips(facts: seq<Fact>, notes: Notes): nat {
    if facts == [] then 0
    else Flips(facts[..|facts| - 1], notes)
         + (if Settled(facts[|facts| - 1], notes).state != facts[|facts| - 1].state then 1 else 0)
  }

  /**
   Confirmed only with its note at the recorded version; the owner's withdrawal stands; a returning
   version revives.
   */
  lemma SettledMeans(f: Fact, notes: Notes)
    requires f.forEvidence ==> f.state == Withdrawn
    ensures var g := Settled(f, notes);
            && (g.state == Confirmed && g.evidence.note.Some? ==> Supported(g, notes))
            && (f.state == Withdrawn && !f.forEvidence ==> g == f)
            && (f.forEvidence && Supported(f, notes) ==> g.state == Confirmed && !g.forEvidence)
            && (f.state == Confirmed && f.evidence.note.Some? && !Supported(f, notes) ==>
              g.state == Withdrawn && g.forEvidence)
            && (g.forEvidence ==> g.state == Withdrawn)
            && g.id == f.id && g.target == f.target && g.value == f.value
  {
  }

  lemma {:induction false} NoFlips(facts: seq<Fact>, notes: Notes)
    requires SettledAll(facts, notes) == facts
    ensures Flips(facts, notes) == 0
  {
    if facts != [] {
      var before, last := facts[..|facts| - 1], facts[|facts| - 1];
      assert SettledAll(facts, notes)[|facts| - 1] == last;
      forall i | 0 <= i < |before| ensures Settled(before[i], notes) == before[i] {
        assert SettledAll(facts, notes)[i] == facts[i];
      }
      assert SettledAll(before, notes) == before;
      NoFlips(before, notes);
    }
  }

  // ----- What one pass does -----

  function FactsOf(l: Ledger, id: string): seq<Fact> {
    if id in l then l[id].facts else []
  }

  function VersionOf(l: Ledger, id: string): nat {
    if id in l then l[id].version else 1
  }

  /** Everything but facts and version. */
  ghost predicate SameIdentity(a: Entity, b: Entity) {
    a.(facts := [], version := 0) == b.(facts := [], version := 0)
  }

  /** The dossiers of the start are all there; a new one is a person known by one wanted, free address. */
  ghost predicate Grown(b: Basis, l: Ledger) {
    && (forall id | id in b.start :: id in l && SameIdentity(b.start[id], l[id]))
    && (forall id | id in l && id !in b.start ::
          && l[id].id == id && l[id].kind == PersonKind && l[id].automatic && !l[id].retired && l[id].redirect == None
          && |l[id].emails| == 1 && l[id].name == l[id].emails[0] && l[id].aliases == []
          && Wanted(b, l[id].emails[0]) && l[id].emails[0] !in b.suppressed
          && !Taken(b.start, l[id].emails, None))
  }

  /** The facts of the start, then one metadata fact for each further mention. */
  ghost predicate Appended(b: Basis, byEmail: map<string, string>, facts: seq<Fact>, id: string)
    requires ValidBasis(b)
  {
    && FactsOf(b.start, id) <= facts
    && DistinctFacts(facts)
    && forall k | |FactsOf(b.start, id)| <= k < |facts| :: Mentioned(b, byEmail, facts[k], id)
  }

  ghost predicate Mentioned(b: Basis, byEmail: map<string, string>, f: Fact, id: string)
    requires ValidBasis(b)
  {
    exists x | x in b.notes :: Mentions(b, byEmail, b.notes[x], id) && f == MetaFact(b.notes[x], id)
  }

  ghost predicate Complete(b: Basis, byEmail: map<string, string>, x: string, id: string, facts: seq<Fact>)
    requires ValidBasis(b) && x in b.notes
  {
    Mentions(b, byEmail, b.notes[x], id) ==> Has(facts, MetaId(b.notes[x], id))
  }

  /** One dossier after the pass: `gathered` are its facts before they were settled. */
  ghost predicate Pass(b: Basis, byEmail: map<string, string>, e: Entity, id: string, gathered: seq<Fact>)
    requires ValidBasis(b)
  {
    && Appended(b, byEmail, gathered, id)
    && (forall x | x in b.notes :: Complete(b, byEmail, x, id, gathered))
    && e.facts == SettledAll(gathered, b.notes)
    && e.version == VersionOf(b.start, id) + |gathered| - |FactsOf(b.start, id)| + Flips(gathered, b.notes)
  }

  ghost predicate Passed(b: Basis, byEmail: map<string, string>, e: Entity, id: string)
    requires ValidBasis(b)
  {
    exists gathered :: Pass(b, byEmail, e, id, gathered)
  }

  /** The whole pass, from the ledger it starts from to the ledger it leaves. */
  ghost predicate Contributes(b: Basis, l: Ledger, byEmail: map<string, string>)
    requires ValidBasis(b)
  {
    && Grown(b, l) && IsIndex(l, byEmail)
    && (forall x | x in b.notes :: Resolved(b, byEmail, b.notes[x], |b.notes[x].values|))
    && (forall id | id in l :: Passed(b, byEmail, l[id], id))
  }

  // ----- A second pass over the same notes changes nothing -----

  ghost predicate LinksNew(b: Basis, l: Ledger, m: Mention) {
    m.Link? && exists id | id in l && id !in b.start :: m.path == NoteLinks.WithoutMd(l[id].path)
  }

  /** Every note that links to a dossier the pass created already has its fact there. */
  ghost predicate NewLinksServed(b: Basis, l: Ledger) {
    forall x, j, id | x in b.notes && 0 <= j < |b.notes[x].values| && id in l && id !in b.start
      && MentionAt(b, b.notes[x], j) == Link(NoteLinks.WithoutMd(l[id].path)) ::
        Has(l[id].facts, MetaId(b.notes[x], id))
  }

  ghost predicate Follows(b: Basis, l: Ledger, next: Basis) {
    next.start == l && next.notes == b.notes && next.fields == b.fields && next.suppressed == b.suppressed
  }

  lemma {:induction false} RootKept(b: Basis, l: Ledger, rank: map<string, nat>, id: string)
    requires ValidBasis(b) && Grown(b, l) && Ranked(l, rank) && id in b.start
    ensures Root(l, id, rank) == Root(b.start, id, b.rank)
    decreases if id in b.rank then b.rank[id] else 0
  {
    assert SameIdentity(b.start[id], l[id]);
    if b.start[id].redirect.Some? {
      RootKept(b, l, rank, b.start[id].redirect.value);
    }
  }

  lemma SameWishes(b: Basis, next: Basis, a: string)
    requires next.notes == b.notes && next.fields == b.fields && Wanted(next, a)
    ensures Wanted(b, a)
  {
    var x, j :| x in b.notes && 0 <= j < |b.notes[x].values| && MentionAt(next, b.notes[x], j) == Address(a);
    assert MentionAt(b, b.notes[x], j) == Address(a);
  }

  /** The second pass creates no dossier: every wanted address has an owner or is suppressed. */
  lemma NobodyNew(b: Basis, l: Ledger, byEmail: map<string, string>, next: Basis, l2: Ledger)
    requires IsIndex(l, byEmail) && Follows(b, l, next) && Grown(next, l2)
    requires forall x | x in b.notes :: Resolved(b, byEmail, b.notes[x], |b.notes[x].values|)
    ensures l2.Keys == l.Keys
  {
    if id :| id in l2 && id !in l {
      var a := l2[id].emails[0];
      SameWishes(b, next, a);
      var owner := byEmail[a];
      assert owner in l && l[owner].redirect == None && a in l[owner].emails && a in l2[id].emails;
      assert Taken(l, l2[id].emails, None);
    }
  }

  lemma IndexKept(l: Ledger, byEmail: map<string, string>, l2: Ledger, byEmail2: map<string, string>)
    requires IsIndex(l, byEmail) && IsIndex(l2, byEmail2) && l.Keys == l2.Keys
    requires forall id | id in l :: SameIdentity(l[id], l2[id])
    ensures byEmail == byEmail2
  {
  }

  lemma ReachedKept(b: Basis, l: Ledger, byEmail: map<string, string>, next: Basis, m: Mention)
    requires ValidBasis(b) && Grown(b, l) && Follows(b, l, next) && ValidBasis(next) && !LinksNew(b, l, m)
    ensures Reached(next, byEmail, m) == Reached(b, byEmail, m)
  {
    if m.Link? {
      if m.path in b.byPath {
        var id := b.byPath[m.path];
        assert SameIdentity(b.start[id], l[id]);
        RootKept(b, l, next.rank, id);
      } else if m.path in next.byPath {
      }
    }
  }

  /** A link to a dossier the first pass created leads the second one there. */
  lemma NewLinkReached(b: Basis, l: Ledger, byEmail: map<string, string>, next: Basis, m: Mention, id: string)
    requires Grown(b, l) && Follows(b, l, next) && ValidBasis(next) && id in l && id !in b.start
    requires m == Link(NoteLinks.WithoutMd(l[id].path))
    ensures Reached(next, byEmail, m) == Some(id)
  {
  }

  lemma SettledHas(facts: seq<Fact>, notes: Notes, id: FactId)
    requires Has(facts, id)
    ensures Has(SettledAll(facts, notes), id)
  {
    var f :| f in facts && f.id == id;
    var k :| 0 <= k < |facts| && facts[k] == f;
    assert SettledAll(facts, notes)[k] in SettledAll(facts, notes) && SettledAll(facts, notes)[k].id == id;
  }

  /** What the second pass would add is already there. */
  lemma NothingToAdd(b: Basis, l: Ledger, byEmail: map<string, string>, next: Basis, id: string,
                     first: seq<Fact>, second: seq<Fact>)
    requires ValidBasis(b) && Grown(b, l) && Follows(b, l, next) && ValidBasis(next) && NewLinksServed(b, l) && id in l
    requires forall x | x in b.notes :: Complete(b, byEmail, x, id, first)
    requires l[id].facts == SettledAll(first, b.notes)
    requires Appended(next, byEmail, second, id)
    ensures second == l[id].facts
  {
    hide Grown, Complete, Mentioned, NewLinksServed, ValidBasis, SettledAll;
    var held := l[id].facts;
    if |held| < |second| {
      assert Mentioned(next, byEmail, second[|held|], id);
      AlreadyThere(b, l, byEmail, next, id, first, second[|held|]);
      NotTwice(held, second, second[|held|].id);
    }
  }

  lemma NotTwice(held: seq<Fact>, more: seq<Fact>, id: FactId)
    requires held <= more && |held| < |more| && DistinctFacts(more) && Has(held, id)
    ensures more[|held|].id != id
  {
    var f :| f in held && f.id == id;
    var k :| 0 <= k < |held| && held[k] == f;
    assert more[k] == f;
  }

  lemma AlreadyThere(b: Basis, l: Ledger, byEmail: map<string, string>, next: Basis, id: string,
                     first: seq<Fact>, f: Fact)
    requires ValidBasis(b) && Grown(b, l) && Follows(b, l, next) && ValidBasis(next) && NewLinksServed(b, l) && id in l
    requires forall x | x in b.notes :: Complete(b, byEmail, x, id, first)
    requires l[id].facts == SettledAll(first, b.notes) && Mentioned(next, byEmail, f, id)
    ensures Has(l[id].facts, f.id)
  {
    hide Grown;
    var x :| x in b.notes && Mentions(next, byEmail, b.notes[x], id) && f == MetaFact(b.notes[x], id);
    var note := b.notes[x];
    var j :| 0 <= j < |note.values| && Reached(next, byEmail, MentionAt(next, note, j)) == Some(id);
    MentionServed(b, l, byEmail, next, x, j, id, first);
  }

  lemma MentionServed(b: Basis, l: Ledger, byEmail: map<string, string>, next: Basis, x: string, j: nat, id: string,
                      first: seq<Fact>)
    requires ValidBasis(b) && Grown(b, l) && Follows(b, l, next) && ValidBasis(next) && NewLinksServed(b, l) && id in l
    requires x in b.notes && Complete(b, byEmail, x, id, first) && l[id].facts == SettledAll(first, b.notes)
    requires j < |b.notes[x].values| && Unretired(next, id)
      && Reached(next, byEmail, MentionAt(next, b.notes[x], j)) == Some(id)
    ensures Has(l[id].facts, MetaId(b.notes[x], id))
  {
    var m := MentionAt(b, b.notes[x], j);
    assert MentionAt(next, b.notes[x], j) == m;
    if LinksNew(b, l, m) {
      var new_ :| new_ in l && new_ !in b.start && m.path == NoteLinks.WithoutMd(l[new_].path);
      NewLinkReached(b, l, byEmail, next, m, new_);
    } else {
      ReachedKept(b, l, byEmail, next, m);
      assert id in b.start ==> SameIdentity(b.start[id], l[id]);
      assert Mentions(b, byEmail, b.notes[x], id);
      SettledHas(first, b.notes, MetaId(b.notes[x], id));
    }
  }

  lemma AlreadySettled(first: seq<Fact>, notes: Notes)
    ensures SettledAll(SettledAll(first, notes), notes) == SettledAll(first, notes)
    ensures Flips(SettledAll(first, notes), notes) == 0
  {
    forall i | 0 <= i < |first| ensures Settled(Settled(first[i], notes), notes) == Settled(first[i], notes) {
    }
    NoFlips(SettledAll(first, notes), notes);
  }

  lemma DossierKept(b: Basis, l: Ledger, byEmail: map<string, string>, next: Basis, id: string, e: Entity)
    requires ValidBasis(b) && Grown(b, l) && Follows(b, l, next) && ValidBasis(next) && NewLinksServed(b, l) && id in l
    requires Passed(b, byEmail, l[id], id) && Passed(next, byEmail, e, id)
    ensures e.facts == l[id].facts && e.version == l[id].version
  {
    hide Grown, Complete, NewLinksServed, ValidBasis, Appended, SettledAll, Flips;
    var first: seq<Fact> :| Pass(b, byEmail, l[id], id, first);
    var second: seq<Fact> :| Pass(next, byEmail, e, id, second);
    NothingToAdd(b, l, byEmail, next, id, first, second);
    AlreadySettled(first, b.notes);
  }

  /** A pass, and after it another one over the same notes. */
  ghost predicate TwoPasses(b: Basis, l: Ledger, byEmail: map<string, string>,
                            next: Basis, l2: Ledger, byEmail2: map<string, string>) {
    && ValidBasis(b) && Contributes(b, l, byEmail)
    && Follows(b, l, next) && ValidBasis(next) && Contributes(next, l2, byEmail2)
  }

  lemma SameOwners(b: Basis, l: Ledger, byEmail: map<string, string>, next: Basis, l2: Ledger,
                   byEmail2: map<string, string>)
    requires TwoPasses(b, l, byEmail, next, l2, byEmail2)
    ensures l2.Keys == l.Keys && byEmail2 == byEmail
  {
    NobodyNew(b, l, byEmail, next, l2);
    IndexKept(l, byEmail, l2, byEmail2);
  }

  lemma WholeDossierKept(b: Basis, l: Ledger, byEmail: map<string, string>,
                         next: Basis, l2: Ledger, byEmail2: map<string, string>, id: string)
    requires TwoPasses(b, l, byEmail, next, l2, byEmail2) && NewLinksServed(b, l) && id in l && id in l2
    ensures l2[id] == l[id]
  {
    SameOwners(b, l, byEmail, next, l2, byEmail2);
    assert Passed(b, byEmail, l[id], id) && Passed(next, byEmail, l2[id], id);
    DossierKept(b, l, byEmail, next, id, l2[id]);
    assert SameIdentity(l[id], l2[id]);
  }

  /** A second pass that changes nothing finds every link to a new dossier served. */
  lemma UnchangedMeansServed(b: Basis, l: Ledger, byEmail: map<string, string>, next: Basis,
                             byEmail2: map<string, string>)
    requires TwoPasses(b, l, byEmail, next, l, byEmail2)
    ensures NewLinksServed(b, l)
  {
    forall x, j, id | x in b.notes && 0 <= j < |b.notes[x].values| && id in l && id !in b.start
      && MentionAt(b, b.notes[x], j) == Link(NoteLinks.WithoutMd(l[id].path))
      ensures Has(l[id].facts, MetaId(b.notes[x], id))
    {
      var m := MentionAt(b, b.notes[x], j);
      NewLinkReached(b, l, byEmail2, next, m, id);
      assert MentionAt(next, b.notes[x], j) == m;
      assert Mentions(next, byEmail2, b.notes[x], id);
      assert Passed(next, byEmail2, l[id], id);
      var second: seq<Fact> :| Pass(next, byEmail2, l[id], id, second);
      assert Complete(next, byEmail2, x, id, second);
      SettledHas(second, b.notes, MetaId(b.notes[x], id));
    }
  }

  /**
   Over the same notes a second pass changes nothing at all if and only if every note that links to
   a dossier the first pass created has its fact there already: the first pass could not see it.
   */
  lemma SecondPassChangesNothing(b: Basis, l: Ledger, byEmail: map<string, string>,
                                 next: Basis, l2: Ledger, byEmail2: map<string, string>)
    requires TwoPasses(b, l, byEmail, next, l2, byEmail2)
    ensures l2 == l <==> NewLinksServed(b, l)
  {
    hide NewLinksServed;
    SameOwners(b, l, byEmail, next, l2, byEmail2);
    if NewLinksServed(b, l) {
      if id :| id in l.Keys && l2[id] != l[id] {
        WholeDossierKept(b, l, byEmail, next, l2, byEmail2, id);
      }
      SameLedger(l, l2);
    } else if l2 == l {
      UnchangedMeansServed(b, l, byEmail, next, byEmail2);
    }
  }

  /** `{folder}/{name} {identity}.md` */
  ghost predicate PathEndsIn(path: string, id: string) {
    exists head: string :: path == head + id + ".md"
  }

  /** What was only just made up stands in no note yet. */
  ghost predicate UnknownToNotes(notes: Notes, id: string) {
    forall x, j | x in notes && 0 <= j < |notes[x].values| :: !NoteLinks.Occurs(notes[x].values[j].1, id)
  }

  lemma {:induction false} BeforeBarIsPrefix(s: string)
    ensures BeforeBar(s) <= s
  {
    if s != [] && s[0] != '|' {
      BeforeBarIsPrefix(s[1..]);
      assert s == [s[0]] + s[1..];
    }
  }

  /** A link to a page names the identity at the end of its path. */
  lemma LinkNamesIdentity(key: string, value: string, fields: set<string>, path: string, id: string)
    requires PathEndsIn(path, id) && MentionOf(key, value, fields) == Link(NoteLinks.WithoutMd(path))
    ensures NoteLinks.Occurs(value, id)
  {
    var head: string :| path == head + id + ".md";
    assert path[|path| - 3..] == ".md" && path[..|path| - 3] == head + id;
    var inner, rest := value[2..|value| - 2], value[2..];
    BeforeBarIsPrefix(inner);
    assert inner <= rest;
    IdentityIsInside(head, id, rest);
    NoteLinks.OccursBehind(value[..2], rest, id);
    assert value == value[..2] + rest;
  }

  lemma IdentityIsInside(head: string, id: string, s: string)
    requires head + id <= s
    ensures NoteLinks.Occurs(s, id)
  {
    assert (head + id)[|head|..|head| + |id|] == id;
    assert NoteLinks.At(head + id, |head|, id);
    NoteLinks.PrefixAt(head + id, s, |head|, id);
  }

  /** As new dossiers get identities that no note has seen, a second pass changes nothing at all. */
  lemma FreshSecondPassChangesNothing(b: Basis, l: Ledger, byEmail: map<string, string>,
                                      next: Basis, l2: Ledger, byEmail2: map<string, string>)
    requires TwoPasses(b, l, byEmail, next, l2, byEmail2)
    requires forall id | id in l && id !in b.start :: PathEndsIn(l[id].path, id) && UnknownToNotes(b.notes, id)
    ensures l2 == l
  {
    hide Contributes, Grown, PathEndsIn, MentionOf, NoteLinks.WithoutMd, NoteLinks.Occurs;
    forall x, j, id | x in b.notes && 0 <= j < |b.notes[x].values| && id in l && id !in b.start
      ensures MentionAt(b, b.notes[x], j) != Link(NoteLinks.WithoutMd(l[id].path))
    {
      var value := b.notes[x].values[j];
      assert UnknownToNotes(b.notes, id);
      if MentionOf(value.0, value.1, b.fields) == Link(NoteLinks.WithoutMd(l[id].path)) {
        LinkNamesIdentity(value.0, value.1, b.fields, l[id].path, id);
      }
    }
    assert NewLinksServed(b, l);
    SecondPassChangesNothing(b, l, byEmail, next, l2, byEmail2);
  }

  lemma SameLedger(l: Ledger, l2: Ledger)
    requires l2.Keys == l.Keys && forall id | id in l.Keys :: l2[id] == l[id]
    ensures l2 == l
  {
  }

  /**
   Soundness of a pass: a note-backed fact is confirmed only while its reviewed note has the
   recorded version, what the owner withdrew stays withdrawn, and no fact is lost or doubled.
   */
  lemma PassIsSound(b: Basis, byEmail: map<string, string>, e: Entity, id: string)
    requires ValidBasis(b) && Passed(b, byEmail, e, id)
    requires forall f | f in FactsOf(b.start, id) :: f.forEvidence ==> f.state == Withdrawn
    ensures forall f | f in e.facts && f.state == Confirmed && f.evidence.note.Some? :: Supported(f, b.notes)
    ensures DistinctFacts(e.facts) && |FactsOf(b.start, id)| <= |e.facts|
    ensures forall k | 0 <= k < |FactsOf(b.start, id)| :: Carried(FactsOf(b.start, id)[k], e.facts[k], b.notes)
  {
    hide Settled, Carried, Supported, Mentioned, Complete;
    var gathered: seq<Fact> :| Pass(b, byEmail, e, id, gathered);
    var before := FactsOf(b.start, id);
    forall k | 0 <= k < |gathered|
      ensures e.facts[k] == Settled(gathered[k], b.notes) && e.facts[k].id == gathered[k].id
      ensures e.facts[k].state == Confirmed && e.facts[k].evidence.note.Some? ==> Supported(e.facts[k], b.notes)
      ensures k < |before| ==> Carried(before[k], e.facts[k], b.notes)
    {
      assert e.facts[k] == Settled(gathered[k], b.notes);
      if k < |before| {
        assert gathered[k] == before[k] && before[k] in before;
        SettledCarries(gathered[k], b.notes);
      } else {
        assert Mentioned(b, byEmail, gathered[k], id);
        NotWaiting(b, byEmail, gathered[k], id);
      }
      SettledMeans(gathered[k], b.notes);
    }
  }

  lemma SettledCarries(f: Fact, notes: Notes)
    requires f.forEvidence ==> f.state == Withdrawn
    ensures Carried(f, Settled(f, notes), notes)
  {
  }

  lemma NotWaiting(b: Basis, byEmail: map<string, string>, f: Fact, id: string)
    requires ValidBasis(b) && Mentioned(b, byEmail, f, id)
    ensures !f.forEvidence
  {
  }

  lemma MetaFactSettles(note: Note, id: string, notes: Notes)
    requires note.id in notes && notes[note.id] == note
    ensures Records(Settled(MetaFact(note, id), notes), note, id)
  {
  }

  ghost predicate Keyed(notes: Notes) {
    forall x | x in notes :: notes[x].id == x
  }

  /** The fact a note's mention of a dossier leaves there. */
  ghost predicate Records(f: Fact, note: Note, id: string) {
    && f.id == Metadata(note.id, note.hash, id) && f.predicate_ == "mentioned" && f.value == note.title
    && f.target.None? && f.state == Confirmed && !f.forEvidence && f.supersedes.None?
    && f.evidence == Evidence(Some(note.id), note.hash, note.path, "")
  }

  ghost predicate RecordsMention(b: Basis, byEmail: map<string, string>, f: Fact, id: string)
    requires ValidBasis(b)
  {
    exists y | y in b.notes :: Mentions(b, byEmail, b.notes[y], id) && Records(f, b.notes[y], id)
  }

  /**
   After a pass every note that mentions a dossier has its fact there. A fact that is new records such
   a mention, confirmed, with the note's title, version and path; and nothing else is new.
   */
  lemma PassRecordsMentions(b: Basis, byEmail: map<string, string>, e: Entity, id: string, x: string)
    requires ValidBasis(b) && Keyed(b.notes) && Passed(b, byEmail, e, id) && x in b.notes
    ensures Mentions(b, byEmail, b.notes[x], id) ==> Has(e.facts, Metadata(x, b.notes[x].hash, id))
    ensures |FactsOf(b.start, id)| <= |e.facts|
    ensures forall k | |FactsOf(b.start, id)| <= k < |e.facts| :: RecordsMention(b, byEmail, e.facts[k], id)
  {
    hide Mentions, Has, Settled, RecordsMention, Mentioned, Complete;
    var gathered: seq<Fact> :| Pass(b, byEmail, e, id, gathered);
    assert Complete(b, byEmail, x, id, gathered);
    SettledHave(gathered, b.notes, MetaId(b.notes[x], id));
    CompleteGives(b, byEmail, x, id, gathered);
    forall k | |FactsOf(b.start, id)| <= k < |e.facts|
      ensures RecordsMention(b, byEmail, e.facts[k], id)
    {
      assert e.facts[k] == Settled(gathered[k], b.notes);
      NewFactRecords(b, byEmail, gathered[k], id);
    }
  }

  lemma CompleteGives(b: Basis, byEmail: map<string, string>, x: string, id: string, facts: seq<Fact>)
    requires ValidBasis(b) && x in b.notes && Complete(b, byEmail, x, id, facts)
    ensures Mentions(b, byEmail, b.notes[x], id) ==> Has(facts, MetaId(b.notes[x], id))
  {
  }

  lemma SettledHave(facts: seq<Fact>, notes: Notes, id: FactId)
    ensures Has(facts, id) ==> Has(SettledAll(facts, notes), id)
  {
    if f :| f in facts && f.id == id {
      var k :| 0 <= k < |facts| && facts[k] == f;
      SettledKeepsId(f, notes);
      assert SettledAll(facts, notes)[k] == Settled(f, notes);
    }
  }

  lemma NewFactRecords(b: Basis, byEmail: map<string, string>, f: Fact, id: string)
    requires ValidBasis(b) && Keyed(b.notes) && Mentioned(b, byEmail, f, id)
    ensures RecordsMention(b, byEmail, Settled(f, b.notes), id)
  {
    hide Mentions, Settled, Records, MetaFact;
    var y :| y in b.notes && Mentions(b, byEmail, b.notes[y], id) && f == MetaFact(b.notes[y], id);
    MetaFactSettles(b.notes[y], id, b.notes);
  }

  lemma SettledKeepsId(f: Fact, notes: Notes)
    ensures Settled(f, notes).id == f.id
  {
  }

  lemma {:induction false} NoBar(s: string, rest: string)
    requires '|' !in s && (rest == "" || rest[0] == '|')
    ensures BeforeBar(s + rest) == s
  {
    if s == "" {
      assert s + rest == rest;
    } else {
      assert (s + rest)[0] == s[0] && (s + rest)[1..] == s[1..] + rest && s[0] in s;
      NoBar(s[1..], rest);
    }
  }

  /** A link is read under any key, with or without an extension and a text to show. */
  lemma LinkIsRead(key: string, path: string, shown: string, fields: set<string>)
    requires '|' !in path && (shown == "" || shown[0] == '|')
    ensures MentionOf(key, "[[" + path + shown + "]]", fields) == Link(NoteLinks.WithoutMd(path))
    ensures NoteLinks.WithoutMd(path + ".md") == path
  {
    var value := "[[" + path + shown + "]]";
    assert value[..2] == "[[" && value[|value| - 2..] == "]]" && value[2..|value| - 2] == path + shown;
    NoBar(path, shown);
    assert (path + ".md")[|path + ".md"| - 3..] == ".md" && (path + ".md")[..|path + ".md"| - 3] == path;
  }

  /** An address is read under the chosen keys only. */
  lemma AddressIsRead(key: string, value: string, fields: set<string>)
    requires !("[[" <= value)
    ensures MentionOf(key, value, fields) ==
      if key in fields && Email(value).Some? then Address(Email(value).value) else NoMention
  {
    assert |value| >= 4 ==> (value[..2] == "[[" ==> "[[" <= value);
  }

  /** What becomes of one fact in a pass. */
  ghost predicate Carried(was: Fact, now: Fact, notes: Notes) {
    && now == was.(state := now.state, forEvidence := now.forEvidence, evidence := now.evidence)
    && now.evidence == was.evidence.(path := now.evidence.path)
    && (was.evidence.note.None? ==> now == was)
    && (was.state == Confirmed && was.evidence.note.Some? && Supported(was, notes) ==>
          now.state == Confirmed && now.evidence.path == notes[was.evidence.note.value].path)
    && (was.state == Withdrawn && !was.forEvidence ==> now == was)
    && (was.forEvidence && Supported(was, notes) ==> now.state == Confirmed)
    && (was.state == Confirmed && was.evidence.note.Some? && !Supported(was, notes) ==>
      now.state == Withdrawn && now.forEvidence)
  }

  // ----- While a pass is going on -----

  ghost predicate Gathering(b: Basis, byEmail: map<string, string>, e: Entity, id: string)
    requires ValidBasis(b)
  {
    Appended(b, byEmail, e.facts, id) && e.version == VersionOf(b.start, id) + |e.facts| - |FactsOf(b.start, id)|
  }

  /** The ledger and the address index between two mentions. */
  ghost predicate Ongoing(b: Basis, l: Ledger, byEmail: map<string, string>)
    requires ValidBasis(b)
  {
    Inv(l) && Grown(b, l) && IsIndex(l, byEmail) && forall id | id in l :: Gathering(b, byEmail, l[id], id)
  }

  /** What a pass has found is never taken back during the pass. */
  ghost predicate Later(b: Basis, l: Ledger, byEmail: map<string, string>, l2: Ledger, byEmail2: map<string, string>) {
    && (forall a | a in byEmail :: a in byEmail2 && byEmail2[a] == byEmail[a])
    && (forall a | a in byEmail2 && a !in byEmail :: a !in b.suppressed)
    && (forall id | id in l :: id in l2 && l[id].facts <= l2[id].facts)
  }

  lemma LaterTransitive(b: Basis, l: Ledger, e: map<string, string>, l2: Ledger, e2: map<string, string>,
                        l3: Ledger, e3: map<string, string>)
    requires Later(b, l, e, l2, e2) && Later(b, l2, e2, l3, e3)
    ensures Later(b, l, e, l3, e3)
  {
  }

  lemma LaterReflexive(b: Basis, l: Ledger, byEmail: map<string, string>)
    ensures Later(b, l, byEmail, l, byEmail)
  {
  }

  /** A note is dealt with: its addresses have owners, and everyone it mentions has its fact. */
  ghost predicate Dealt(b: Basis, l: Ledger, byEmail: map<string, string>, note: Note)
    requires ValidBasis(b)
  {
    && Resolved(b, byEmail, note, |note.values|)
    && forall id | Mentions(b, byEmail, note, id) :: id in l && Has(l[id].facts, MetaId(note, id))
  }

  lemma DealtStays(b: Basis, l: Ledger, byEmail: map<string, string>, l2: Ledger, byEmail2: map<string, string>,
                   note: Note)
    requires ValidBasis(b) && Dealt(b, l, byEmail, note) && Later(b, l, byEmail, l2, byEmail2)
    ensures Dealt(b, l2, byEmail2, note)
  {
    forall j | 0 <= j < |note.values| ensures Owned(b, byEmail2, MentionAt(b, note, j)) {
      assert Owned(b, byEmail, MentionAt(b, note, j));
    }
    forall id | Mentions(b, byEmail2, note, id) ensures id in l2 && Has(l2[id].facts, MetaId(note, id)) {
      var f :| f in l[id].facts && f.id == MetaId(note, id);
      assert f in l2[id].facts;
    }
  }

  lemma RankKept(b: Basis, l: Ledger)
    requires ValidBasis(b) && Grown(b, l)
    ensures Ranked(l, b.rank)
  {
    forall id | id in l && l[id].redirect.Some?
      ensures l[id].redirect.value in l && id in b.rank && l[id].redirect.value in b.rank
        && b.rank[id] > b.rank[l[id].redirect.value]
    {
      assert id in b.start && SameIdentity(b.start[id], l[id]);
    }
  }

  lemma LinkFollowed(b: Basis, l: Ledger, id: string)
    requires ValidBasis(b) && Grown(b, l) && id in b.start
    ensures id in l && Ranked(l, b.rank) && Root(l, id, b.rank) == Root(b.start, id, b.rank)
  {
    assert SameIdentity(b.start[id], l[id]);
    RankKept(b, l);
    RootKept(b, l, b.rank, id);
  }

  lemma WantedHere(b: Basis, x: string, j: nat, address: string)
    requires x in b.notes && j < |b.notes[x].values| && MentionAt(b, b.notes[x], j) == Address(address)
    ensures Wanted(b, address)
  {
  }

  lemma OwnerIndexed(b: Basis, l: Ledger, byEmail: map<string, string>, a: string)
    requires ValidBasis(b) && Ongoing(b, l, byEmail) && a in byEmail
    ensures byEmail[a] in l
  {
  }

  lemma RetiredKept(b: Basis, l: Ledger, id: string)
    requires Grown(b, l) && id in l
    ensures Unretired(b, id) <==> !l[id].retired
  {
    assert id in b.start ==> SameIdentity(b.start[id], l[id]);
  }

  /** The mentions gathered from the first values of a note. */
  ghost predicate Collected(b: Basis, byEmail: map<string, string>, note: Note, upto: nat, mentions: set<string>)
    requires ValidBasis(b) && upto <= |note.values|
  {
    && Resolved(b, byEmail, note, upto)
    && (forall id | id in mentions :: Mentions(b, byEmail, note, id))
    && (forall j | 0 <= j < upto :: Included(b, byEmail, note, j, mentions))
  }

  ghost predicate Included(b: Basis, byEmail: map<string, string>, note: Note, j: nat, mentions: set<string>)
    requires ValidBasis(b) && j < |note.values|
  {
    var found := Reached(b, byEmail, MentionAt(b, note, j));
    found.Some? && Unretired(b, found.value) ==> found.value in mentions
  }

  lemma CollectedMore(b: Basis, l: Ledger, e: map<string, string>, l2: Ledger, e2: map<string, string>, note: Note,
                      i: nat, mentions: set<string>, more: set<string>)
    requires ValidBasis(b) && i < |note.values| && Collected(b, e, note, i, mentions) && Later(b, l, e, l2, e2)
    requires Owned(b, e2, MentionAt(b, note, i))
    requires var found := Reached(b, e2, MentionAt(b, note, i));
             more == if found.Some? && Unretired(b, found.value) then mentions + {found.value} else mentions
    ensures Collected(b, e2, note, i + 1, more)
  {
    forall j | 0 <= j < i + 1 ensures Owned(b, e2, MentionAt(b, note, j)) && Included(b, e2, note, j, more) {
      if j < i {
        assert Owned(b, e, MentionAt(b, note, j)) && Included(b, e, note, j, mentions);
        assert Reached(b, e2, MentionAt(b, note, j)) == Reached(b, e, MentionAt(b, note, j));
      }
    }
    forall id | id in more ensures Mentions(b, e2, note, id) {
      if id in mentions {
      }
    }
  }

  lemma CollectedAll(b: Basis, byEmail: map<string, string>, note: Note, mentions: set<string>, id: string)
    requires ValidBasis(b) && Collected(b, byEmail, note, |note.values|, mentions)
    ensures id in mentions <==> Mentions(b, byEmail, note, id)
  {
    if Mentions(b, byEmail, note, id) {
      var j :| 0 <= j < |note.values| && Reached(b, byEmail, MentionAt(b, note, j)) == Some(id);
      assert Included(b, byEmail, note, j, mentions);
    }
  }

  // ----- One new person, one new fact -----

  lemma PersonIndexed(l: Ledger, byEmail: map<string, string>, a: string, id: string, e: Entity)
    requires IsIndex(l, byEmail) && a !in byEmail && id !in l && e.redirect == None && e.emails == [a]
    ensures IsIndex(l[id := e], byEmail[a := id])
  {
  }

  lemma AddressIsFree(l: Ledger, byEmail: map<string, string>, a: string)
    requires IsIndex(l, byEmail) && a !in byEmail
    ensures !Taken(l, [a], None)
  {
  }

  lemma TakenFromTheStart(b: Basis, l: Ledger, a: string)
    requires Grown(b, l) && Taken(b.start, [a], None)
    ensures Taken(l, [a], None)
  {
    var id, address :| id in b.start && address in [a] && b.start[id].redirect == None && address in b.start[id].emails;
    assert SameIdentity(b.start[id], l[id]);
    assert id in l && l[id].redirect == None && address in l[id].emails;
  }

  function Person(a: string, id: string, path: string): Entity {
    Entity(id, PersonKind, a, [], [a], path, 1, [], false, None, true)
  }

  lemma MakesPerson(l: Ledger, a: string, id: string, path: string)
    requires Email(a) == Some(a) && !Taken(l, [a], None)
    ensures Make(l, id, PersonKind, a, [], [a], path, true) == Ok(l[id := Person(a, id, path)])
  {
    assert [a][1..] == [] && [a][..0] == [];
    assert Normalised([]) == Some([]) && [a] + [] == [a];
    assert Normalised([a]) == Some([a]);
    assert SortedSet([]) == [] && SortedSet([a]) == [a];
  }

  lemma PersonGrows(b: Basis, l: Ledger, a: string, id: string, path: string)
    requires Grown(b, l) && id !in l && a !in b.suppressed && Wanted(b, a) && !Taken(b.start, [a], None)
    ensures Grown(b, l[id := Person(a, id, path)])
  {
  }

  lemma PersonGathers(b: Basis, l: Ledger, byEmail: map<string, string>, a: string, id: string, path: string,
                      other: string)
    requires ValidBasis(b) && Grown(b, l) && id !in l && a !in byEmail && (other in l || other == id)
    requires forall known | known in l :: Gathering(b, byEmail, l[known], known)
    ensures Gathering(b, byEmail[a := id], l[id := Person(a, id, path)][other], other)
  {
    if other != id {
    } else {
      assert id !in b.start;
    }
  }

  lemma PersonKeepsInv(l: Ledger, a: string, id: string, path: string)
    requires Inv(l) && id !in l && Email(a) == Some(a) && !Taken(l, [a], None)
    ensures Inv(l[id := Person(a, id, path)])
  {
    MakesPerson(l, a, id, path);
    MakeKeepsInv(l, id, PersonKind, a, [], [a], path, true);
  }

  lemma PersonAdded(b: Basis, l: Ledger, byEmail: map<string, string>, a: string, id: string, path: string)
    requires ValidBasis(b) && Ongoing(b, l, byEmail) && id !in l
    requires Email(a) == Some(a) && a !in byEmail && a !in b.suppressed && Wanted(b, a)
    ensures Ongoing(b, l[id := Person(a, id, path)], byEmail[a := id])
    ensures Later(b, l, byEmail, l[id := Person(a, id, path)], byEmail[a := id])
  {
    hide Inv, Grown, IsIndex, Gathering, Wanted;
    var next := l[id := Person(a, id, path)];
    AddressIsFree(l, byEmail, a);
    if Taken(b.start, [a], None) {
      TakenFromTheStart(b, l, a);
    }
    PersonKeepsInv(l, a, id, path);
    PersonGrows(b, l, a, id, path);
    PersonIndexed(l, byEmail, a, id, next[id]);
    forall other | other in next ensures Gathering(b, byEmail[a := id], next[other], other) {
      PersonGathers(b, l, byEmail, a, id, path, other);
    }
  }

  function WithFact(e: Entity, f: Fact): Entity {
    e.(facts := e.facts + [f], version := e.version + 1)
  }

  lemma FactGathered(b: Basis, byEmail: map<string, string>, e: Entity, id: string, x: string)
    requires ValidBasis(b) && Gathering(b, byEmail, e, id) && x in b.notes && Mentions(b, byEmail, b.notes[x], id)
    requires !Has(e.facts, MetaId(b.notes[x], id))
    ensures Gathering(b, byEmail, WithFact(e, MetaFact(b.notes[x], id)), id)
  {
    var f := MetaFact(b.notes[x], id);
    assert Mentioned(b, byEmail, f, id);
    forall k | |FactsOf(b.start, id)| <= k < |e.facts + [f]| ensures Mentioned(b, byEmail, (e.facts + [f])[k], id) {
      assert k < |e.facts| ==> Mentioned(b, byEmail, e.facts[k], id);
    }
    forall k | 0 <= k < |e.facts| ensures e.facts[k].id != f.id {
      assert e.facts[k] in e.facts;
    }
  }

  lemma IndexIgnoresFacts(l: Ledger, byEmail: map<string, string>, id: string, e: Entity)
    requires IsIndex(l, byEmail) && id in l && SameIdentity(l[id], e)
    ensures IsIndex(l[id := e], byEmail)
  {
  }

  lemma FactKeepsInv(l: Ledger, id: string, f: Fact)
    requires Inv(l) && id in l && Aimed(f, l) && !f.forEvidence && !Has(l[id].facts, f.id)
    ensures Inv(l[id := WithFact(l[id], f)])
  {
    assert SoundFacts(l[id].facts, l) && WellFormed(l[id], id);
    RecordingKeepsSound(l[id].facts, f, l);
    SameEmailsOwnAlone(l, id, WithFact(l[id], f));
    PutKeepsInv(l, id, WithFact(l[id], f));
  }

  lemma FactKeepsGrown(b: Basis, l: Ledger, id: string, f: Fact)
    requires Grown(b, l) && id in l
    ensures Grown(b, l[id := WithFact(l[id], f)])
  {
    var e := WithFact(l[id], f);
    assert SameIdentity(l[id], e);
    assert id in b.start ==> SameIdentity(b.start[id], l[id]);
  }

  lemma FactAdded(b: Basis, l: Ledger, byEmail: map<string, string>, x: string, id: string)
    requires ValidBasis(b) && Ongoing(b, l, byEmail) && id in l && x in b.notes
    requires Mentions(b, byEmail, b.notes[x], id) && !Has(l[id].facts, MetaId(b.notes[x], id))
    ensures Ongoing(b, l[id := WithFact(l[id], MetaFact(b.notes[x], id))], byEmail)
    ensures Later(b, l, byEmail, l[id := WithFact(l[id], MetaFact(b.notes[x], id))], byEmail)
  {
    hide Inv, Grown, IsIndex, Gathering, Mentions, Aimed;
    var f := MetaFact(b.notes[x], id);
    assert Gathering(b, byEmail, l[id], id);
    FactGathered(b, byEmail, l[id], id, x);
    FactKeepsInv(l, id, f);
    FactKeepsGrown(b, l, id, f);
    IndexIgnoresFacts(l, byEmail, id, WithFact(l[id], f));
  }

  // ----- Settling every fact -----

  function SettledEntity(e: Entity, notes: Notes): Entity {
    e.(facts := SettledAll(e.facts, notes), version := e.version + Flips(e.facts, notes))
  }

  function SettledLedger(l: Ledger, notes: Notes): (r: Ledger)
    ensures r.Keys == l.Keys
  {
    map id | id in l :: SettledEntity(l[id], notes)
  }

  lemma SettledSound(facts: seq<Fact>, notes: Notes, l: Ledger, next: Ledger)
    requires SoundFacts(facts, l)
    requires forall id | id in l && l[id].redirect == None :: id in next && next[id].redirect == None
    ensures SoundFacts(SettledAll(facts, notes), next)
  {
    var settled := SettledAll(facts, notes);
    forall k | 0 <= k < |facts|
      ensures settled[k].id == facts[k].id && Aimed(settled[k], next)
        && (settled[k].forEvidence ==> settled[k].state == Withdrawn)
    {
      assert facts[k] in facts && Aimed(facts[k], l);
      SettledMeans(facts[k], notes);
    }
  }

  lemma SettlingKeepsInv(l: Ledger, notes: Notes)
    requires Inv(l)
    ensures Inv(SettledLedger(l, notes))
  {
    var next := SettledLedger(l, notes);
    var rank: map<string, nat> :| Ranked(l, rank);
    assert Ranked(next, rank);
    forall id | id in next ensures SoundFacts(next[id].facts, next) {
      SettledSound(l[id].facts, notes, l, next);
    }
    forall id | id in next ensures WellFormed(next[id], id) {
      assert WellFormed(l[id], id);
    }
  }

  lemma SettledKeepsGrown(b: Basis, l: Ledger)
    requires Grown(b, l)
    ensures Grown(b, SettledLedger(l, b.notes))
  {
    var next := SettledLedger(l, b.notes);
    forall id | id in b.start ensures id in next && SameIdentity(b.start[id], next[id]) {
      assert SameIdentity(b.start[id], l[id]);
    }
  }

  lemma SettledPassed(b: Basis, l: Ledger, byEmail: map<string, string>, id: string)
    requires ValidBasis(b) && id in l && Gathering(b, byEmail, l[id], id)
    requires forall x | x in b.notes :: Dealt(b, l, byEmail, b.notes[x])
    ensures Passed(b, byEmail, SettledEntity(l[id], b.notes), id)
  {
    forall x | x in b.notes ensures Complete(b, byEmail, x, id, l[id].facts) {
      assert Dealt(b, l, byEmail, b.notes[x]);
    }
    assert Pass(b, byEmail, SettledEntity(l[id], b.notes), id, l[id].facts);
  }

  lemma SettledKeepsIndex(l: Ledger, notes: Notes, byEmail: map<string, string>)
    requires IsIndex(l, byEmail)
    ensures IsIndex(SettledLedger(l, notes), byEmail)
  {
  }

  /** Once every note is dealt with, settling completes the pass. */
  lemma SettlingCompletes(b: Basis, l: Ledger, byEmail: map<string, string>)
    requires ValidBasis(b) && Ongoing(b, l, byEmail) && forall x | x in b.notes :: Dealt(b, l, byEmail, b.notes[x])
    ensures Contributes(b, SettledLedger(l, b.notes), byEmail)
  {
    hide Inv, Grown, Gathering, Passed, Resolved, IsIndex, Mentions, Has, SettledEntity, ValidBasis;
    SettledKeepsGrown(b, l);
    SettledKeepsIndex(l, b.notes, byEmail);
    forall id | id in l ensures Passed(b, byEmail, SettledLedger(l, b.notes)[id], id) {
      SettledPassed(b, l, byEmail, id);
    }
  }
}
