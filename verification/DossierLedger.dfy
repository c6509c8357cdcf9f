/**
 The dossier ledger: people and companies, the facts recorded about them, and the identity
 decisions (merge and split) that redirect one dossier to another.
 */
module DossierLedger {
  import opened Results
  import opened Ordering

  datatype Kind = PersonKind | CompanyKind

  datatype FactState = Confirmed | Withdrawn

  /** Minted ids are fresh; a metadata id is the digest of a note version and a dossier. */
  datatype FactId = Minted(name: string) | Metadata(note: string, noteHash: string, subject: string)

  datatype Evidence = Evidence(note: Option<string>, noteHash: string, path: string, quote: string)

  /** `forEvidence` marks a withdrawal that ends when the same note version returns. */
  datatype Fact = Fact(id: FactId, predicate_: string, value: string, target: Option<string>, state: FactState,
                       forEvidence: bool, evidence: Evidence, supersedes: Option<FactId>)

  datatype Entity = Entity(id: string, kind: Kind, name: string, aliases: seq<string>, emails: seq<string>,
                           path: string, version: nat, facts: seq<Fact>, retired: bool,
                           redirect: Option<string>, automatic: bool)

  type Ledger = map<string, Entity>

  // ----- Email addresses -----

  function LowerChar(c: char): char {
    if 'A' <= c <= 'Z' then c + 32 as char else c
  }

  function Lower(s: string): (r: string)
    ensures |r| == |s|
  {
    seq(|s|, i requires 0 <= i < |s| => LowerChar(s[i]))
  }

  predicate Forbidden(c: char) {
    c in " \t\n\r<>[]\0" || c == 11 as char || c == 12 as char
  }

  /** Where the last "@" stands. */
  function LastAt(s: string): Option<nat> {
    if s == [] then None
    else if s[|s| - 1] == '@' then Some(|s| - 1)
    else LastAt(s[..|s| - 1])
  }

  /** The exact address, with its domain in lower case; the local part keeps its case. */
  function Email(value: string): Option<string> {
    match LastAt(value)
    case None => None
    case Some(at) =>
      if at == 0 || at >= |value| - 1 || |value| > 200 || (exists c | c in value :: Forbidden(c)) then None
      else Some(value[..at] + "@" + Lower(value[at + 1..]))
  }

  lemma {:induction false} LastAtIs(s: string)
    ensures match LastAt(s)
            case None => '@' !in s
            case Some(at) => at < |s| && s[at] == '@' && '@' !in s[at + 1..]
  {
    if s != [] && s[|s| - 1] != '@' {
      LastAtIs(s[..|s| - 1]);
      assert s == s[..|s| - 1] + [s[|s| - 1]];
      if LastAt(s).Some? {
        var at := LastAt(s).value;
        assert s[at + 1..] == s[..|s| - 1][at + 1..] + [s[|s| - 1]];
      }
    }
  }

  lemma {:induction false} LastAtAt(head: string, tail: string)
    requires '@' !in tail
    ensures LastAt(head + "@" + tail) == Some(|head|)
  {
    var s := head + "@" + tail;
    if tail == [] {
      assert s[|s| - 1] == '@';
    } else {
      assert tail[|tail| - 1] in tail;
      assert s[..|s| - 1] == head + "@" + tail[..|tail| - 1];
      LastAtAt(head, tail[..|tail| - 1]);
    }
  }

  lemma LowerKeeps(s: string)
    ensures Lower(Lower(s)) == Lower(s)
    ensures '@' !in s ==> '@' !in Lower(s)
    ensures (forall d | d in s :: !Forbidden(d)) ==> forall c | c in Lower(s) :: !Forbidden(c)
  {
    forall i | 0 <= i < |s| ensures LowerChar(LowerChar(s[i])) == LowerChar(s[i])
      && (LowerChar(s[i]) == '@' ==> s[i] == '@')
      ensures Forbidden(LowerChar(s[i])) ==> Forbidden(s[i]) {}
    if forall d | d in s :: !Forbidden(d) {
      forall c | c in Lower(s) ensures !Forbidden(c) {
        var i :| 0 <= i < |s| && Lower(s)[i] == c;
        assert s[i] in s;
      }
    }
  }

  /** A stored address is its own normal form. */
  lemma EmailIdempotent(value: string)
    requires Email(value).Some?
    ensures Email(Email(value).value) == Email(value)
  {
    LastAtIs(value);
    var at := LastAt(value).value;
    var head, tail := value[..at], value[at + 1..];
    var r := head + "@" + Lower(tail);
    LowerKeeps(tail);
    LastAtAt(head, Lower(tail));
    assert r[..at] == head && r[at + 1..] == Lower(tail);
    assert forall d | d in tail :: d in value;
    forall c | c in r ensures !Forbidden(c) {
      assert c in head ==> c in value;
    }
  }

  /** An address is taken exactly if something stands on both sides of its last "@", and nothing forbidden anywhere. */
  lemma EmailExactly(head: string, tail: string)
    requires '@' !in tail
    ensures var value := head + "@" + tail;
      Email(value) ==
        if head == "" || tail == "" || |value| > 200 || (exists c | c in value :: Forbidden(c)) then None
        else Some(head + "@" + Lower(tail))
  {
    var value := head + "@" + tail;
    LastAtAt(head, tail);
    assert value[..|head|] == head && value[|head| + 1..] == tail;
  }

  // ----- Sorted sets of strings -----

  function Elements<T>(xs: seq<T>): set<T> {
    set x | x in xs
  }

  function InsertUnique(sorted: seq<string>, x: string): seq<string> {
    if sorted == [] || Less(x, sorted[0]) then [x] + sorted
    else if x == sorted[0] then sorted
    else [sorted[0]] + InsertUnique(sorted[1..], x)
  }

  /** `sorted(set(xs))` */
  function SortedSet(xs: seq<string>): (r: seq<string>)
    ensures Elements(r) == Elements(xs)
  {
    if xs == [] then []
    else
      assert xs == xs[..|xs| - 1] + [xs[|xs| - 1]];
      InsertedElements(SortedSet(xs[..|xs| - 1]), xs[|xs| - 1]);
      InsertUnique(SortedSet(xs[..|xs| - 1]), xs[|xs| - 1])
  }

  lemma {:induction false} InsertedElements(sorted: seq<string>, x: string)
    ensures Elements(InsertUnique(sorted, x)) == Elements(sorted) + {x}
  {
    if sorted != [] && !Less(x, sorted[0]) && x != sorted[0] {
      InsertedElements(sorted[1..], x);
      assert sorted == [sorted[0]] + sorted[1..];
      var rest := InsertUnique(sorted[1..], x);
      assert Elements([sorted[0]] + rest) == {sorted[0]} + Elements(rest);
      assert Elements(sorted) == {sorted[0]} + Elements(sorted[1..]);
    }
  }

  // ----- The invariant -----

  ghost predicate Ranked(l: Ledger, rank: map<string, nat>) {
    forall id | id in l && l[id].redirect.Some? ::
      && l[id].redirect.value in l && id in rank && l[id].redirect.value in rank
      && rank[id] > rank[l[id].redirect.value]
  }

  /** Redirects lead to existing dossiers and never around in a circle. */
  ghost predicate Forest(l: Ledger) {
    exists rank :: Ranked(l, rank)
  }

  ghost predicate KindsAgree(l: Ledger) {
    forall id | id in l && l[id].redirect.Some? && l[id].redirect.value in l ::
      l[l[id].redirect.value].kind == l[id].kind
  }

  ghost predicate OwnsAlone(l: Ledger) {
    forall a, b | a in l && b in l && a != b && l[a].redirect == None && l[b].redirect == None ::
      Elements(l[a].emails) !! Elements(l[b].emails)
  }

  ghost predicate Normal(emails: seq<string>) {
    forall address | address in emails :: Email(address) == Some(address)
  }

  ghost predicate DistinctFacts(facts: seq<Fact>) {
    forall i, j | 0 <= i < j < |facts| :: facts[i].id != facts[j].id
  }

  /** A fact names a dossier that is its own identity. */
  ghost predicate Aimed(f: Fact, l: Ledger) {
    f.target.Some? ==> f.target.value in l && l[f.target.value].redirect == None
  }

  /** Fact ids are unique in a dossier, and only a withdrawn fact waits for its evidence. */
  ghost predicate SoundFacts(facts: seq<Fact>, l: Ledger) {
    && DistinctFacts(facts)
    && forall f | f in facts :: Aimed(f, l) && (f.forEvidence ==> f.state == Withdrawn)
  }

  ghost predicate WellFormed(e: Entity, id: string) {
    e.id == id && Normal(e.emails)
  }

  ghost predicate AllWellFormed(l: Ledger) {
    forall id | id in l :: WellFormed(l[id], id)
  }

  ghost predicate AllSound(l: Ledger) {
    forall id | id in l :: SoundFacts(l[id].facts, l)
  }

  ghost predicate Inv(l: Ledger) {
    Forest(l) && KindsAgree(l) && OwnsAlone(l) && AllWellFormed(l) && AllSound(l)
  }

  lemma PutKeepsForest(l: Ledger, id: string, e: Entity)
    requires Forest(l) && KindsAgree(l)
    requires if id in l then e.kind == l[id].kind && e.redirect == l[id].redirect else e.redirect == None
    ensures Forest(l[id := e]) && KindsAgree(l[id := e])
  {
    var rank :| Ranked(l, rank);
    assert Ranked(l[id := e], rank);
  }

  /** Putting one dossier in, with its place in the forest unchanged, keeps the invariant. */
  lemma PutKeepsInv(l: Ledger, id: string, e: Entity)
    requires Inv(l) && WellFormed(e, id) && OwnsAlone(l[id := e]) && SoundFacts(e.facts, l)
    requires if id in l then e.kind == l[id].kind && e.redirect == l[id].redirect else e.redirect == None
    ensures Inv(l[id := e])
  {
    PutKeepsForest(l, id, e);
    var next := l[id := e];
    forall other | other in next ensures SoundFacts(next[other].facts, next) {
    }
  }

  // ----- Creating a dossier -----

  datatype Problem = NotFound | Conflict(version: nat) | Invalid(reason: string)

  function Normalised(values: seq<string>): Option<seq<string>> {
    if values == [] then Some([])
    else
      match (Email(values[0]), Normalised(values[1..]))
      case (Some(address), Some(rest)) => Some([address] + rest)
      case _ => None
  }

  predicate Taken(l: Ledger, addresses: seq<string>, except: Option<string>) {
    exists id, address | id in l && address in addresses ::
      Some(id) != except && l[id].redirect == None && address in l[id].emails
  }

  function Make(l: Ledger, id: string, kind: Kind, name: string, aliases: seq<string>, values: seq<string>,
                path: string, automatic: bool): Result<Ledger, Problem>
  {
    match Normalised(values)
    case None => Err(Invalid("emails must be exact email addresses"))
    case Some(addresses) =>
      if Taken(l, addresses, None) then Err(Invalid("email already belongs to a dossier"))
      else Ok(l[id := Entity(id, kind, name, aliases, SortedSet(addresses), path, 1, [], false, None, automatic)])
  }

  lemma {:induction false} NormalisedIsNormal(values: seq<string>)
    requires Normalised(values).Some?
    ensures Normal(Normalised(values).value)
  {
    if values != [] {
      NormalisedIsNormal(values[1..]);
      EmailIdempotent(values[0]);
    }
  }

  lemma {:induction false} NormalisedExactly(values: seq<string>)
    ensures Normalised(values).Some? <==> forall v | v in values :: Email(v).Some?
    ensures Normalised(values).Some? ==>
      var addresses := Normalised(values).value;
      |addresses| == |values| && forall i | 0 <= i < |values| :: Email(values[i]) == Some(addresses[i])
  {
    if values != [] {
      NormalisedExactly(values[1..]);
      assert values == [values[0]] + values[1..];
    }
  }

  /**
   A dossier is made exactly if every address is one and none belongs to a dossier that is its own
   identity; it has those addresses, no facts, and nothing else changes.
   */
  lemma MakeMeans(l: Ledger, id: string, kind: Kind, name: string, aliases: seq<string>, values: seq<string>,
                  path: string, automatic: bool)
    ensures var made := Make(l, id, kind, name, aliases, values, path, automatic);
      && (made.Ok? <==>
            && (forall v | v in values :: Email(v).Some?)
            && forall v, other | v in values && other in l && l[other].redirect == None ::
                 Email(v).value !in l[other].emails)
      && (made.Ok? ==>
            && id in made.value && made.value == l[id := made.value[id]]
            && var e := made.value[id];
            && e == Entity(id, kind, name, aliases, e.emails, path, 1, [], false, None, automatic)
            && forall a :: a in e.emails <==> exists v :: v in values && Email(v) == Some(a))
  {
    NormalisedExactly(values);
    if Normalised(values).Some? {
      var addresses := Normalised(values).value;
      forall a ensures a in addresses <==> exists v :: v in values && Email(v) == Some(a) {
        if a in addresses {
          var i :| 0 <= i < |addresses| && addresses[i] == a;
          assert values[i] in values;
        }
        if v :| v in values && Email(v) == Some(a) {
          var i :| 0 <= i < |values| && values[i] == v;
          assert addresses[i] == a;
        }
      }
      forall a ensures a in SortedSet(addresses) <==> a in addresses {
        assert a in Elements(SortedSet(addresses)) <==> a in Elements(addresses);
      }
    }
  }

  lemma SortedSetNormal(addresses: seq<string>)
    requires Normal(addresses)
    ensures Normal(SortedSet(addresses))
  {
    forall address | address in SortedSet(addresses) ensures Email(address) == Some(address) {
      assert address in Elements(SortedSet(addresses));
    }
  }

  lemma MakeKeepsInv(l: Ledger, id: string, kind: Kind, name: string, aliases: seq<string>, values: seq<string>,
                     path: string, automatic: bool)
    requires Inv(l) && id !in l
    requires Make(l, id, kind, name, aliases, values, path, automatic).Ok?
    ensures Inv(Make(l, id, kind, name, aliases, values, path, automatic).value)
  {
    var next := Make(l, id, kind, name, aliases, values, path, automatic).value;
    var addresses := Normalised(values).value;
    NormalisedIsNormal(values);
    SortedSetNormal(addresses);
    PutKeepsInv(l, id, next[id]);
  }

  // ----- Changing one dossier -----

  function IndexOf(facts: seq<Fact>, id: FactId): (i: Option<nat>)
    ensures i.Some? ==> i.value < |facts| && facts[i.value].id == id
    ensures i == None ==> forall f | f in facts :: f.id != id
  {
    if facts == [] then None
    else if facts[0].id == id then Some(0)
    else match IndexOf(facts[1..], id) case None => None case Some(i) => Some(i + 1)
  }

  /** The owner takes a fact back; nothing but the owner brings it in again. */
  function TakenBack(f: Fact): Fact {
    f.(state := Withdrawn, forEvidence := false)
  }

  function Receipted(e: Entity): Entity {
    e.(version := e.version + 1)
  }

  datatype Change =
    | Rename(name: string)
    | Addresses(aliases: Option<seq<string>>, emails: Option<seq<string>>)
    | Claim(fact: Fact)
    | Correct(previous: FactId, fact: Fact)
    | Withdraw(previous: FactId)
    | Retire
    | Restore

  predicate Active(l: Ledger, id: string) {
    id in l && !l[id].retired && l[id].redirect == None
  }

  /** A new fact is minted for one change: confirmed, and about nothing or an active dossier. */
  predicate Recordable(l: Ledger, fact: Fact) {
    fact.state == Confirmed && !fact.forEvidence && fact.id.Minted?
  }

  function TargetProblem(l: Ledger, target: Option<string>): bool {
    target.Some? && !Active(l, target.value)
  }

  function Changed(l: Ledger, id: string, version: nat, change: Change): Result<Ledger, Problem> {
    if id !in l then Err(NotFound)
    else if l[id].version != version then Err(Conflict(l[id].version))
    else if (l[id].retired || l[id].redirect.Some?)
      && change != Restore then Err(Invalid("restore this dossier before changing it"))
    else
      var e := l[id];
      match change
      case Rename(name) => Ok(l[id := Receipted(e.(name := name))])
      case Addresses(aliases, emails) =>
        (match Normalised(if emails.Some? then emails.value else e.emails)
         case None => Err(Invalid("email is invalid or already belongs to another dossier"))
         case Some(addresses) =>
           if Taken(l, addresses, Some(id)) then Err(Invalid("email is invalid or already belongs to another dossier"))
           else Ok(l[id := Receipted(e.(aliases := if aliases.Some? then aliases.value else e.aliases,
             emails := addresses))]))
      case Claim(fact) =>
        if TargetProblem(l, fact.target) then Err(Invalid("target must name an active dossier"))
        else Ok(l[id := Receipted(e.(facts := e.facts + [fact]))])
      case Correct(previous, fact) =>
        (match IndexOf(e.facts, previous)
         case None => Err(Invalid("fact_id must name a fact on this dossier"))
         case Some(i) =>
           if TargetProblem(l, fact.target) then Err(Invalid("target must name an active dossier"))
           else Ok(l[id := Receipted(e.(facts := e.facts[i := TakenBack(e.facts[i])]
             + [fact.(supersedes := Some(previous))]))]))
      case Withdraw(previous) =>
        (match IndexOf(e.facts, previous)
         case None => Err(Invalid("fact_id must name a fact on this dossier"))
         case Some(i) => Ok(l[id := Receipted(e.(facts := e.facts[i := TakenBack(e.facts[i])]))]))
      case Retire => Ok(l[id := Receipted(e.(retired := true))])
      case Restore =>
        if e.redirect.Some? then Err(Invalid("merged IDs remain redirects; preview a split to separate facts"))
        else Ok(l[id := Receipted(e.(retired := false))])
  }

  ghost predicate FreshFact(l: Ledger, id: string, change: Change) {
    (change.Claim? || change.Correct?) ==>
      && Recordable(l, change.fact)
      && (id in l ==> forall f | f in l[id].facts :: f.id != change.fact.id)
  }

  lemma TakingBackKeepsSound(facts: seq<Fact>, i: nat, l: Ledger)
    requires SoundFacts(facts, l) && i < |facts|
    ensures SoundFacts(facts[i := TakenBack(facts[i])], l)
  {
    var next := facts[i := TakenBack(facts[i])];
    forall f | f in next ensures Aimed(f, l) && (f.forEvidence ==> f.state == Withdrawn) {
      var k :| 0 <= k < |next| && next[k] == f;
      assert facts[k] in facts && Aimed(facts[k], l);
    }
  }

  lemma RecordingKeepsSound(facts: seq<Fact>, fact: Fact, l: Ledger)
    requires SoundFacts(facts, l) && Aimed(fact, l) && !fact.forEvidence
    requires forall f | f in facts :: f.id != fact.id
    ensures SoundFacts(facts + [fact], l)
  {
  }

  lemma FactsStaySound(l: Ledger, id: string, version: nat, change: Change)
    requires Inv(l) && FreshFact(l, id, change) && Changed(l, id, version, change).Ok?
    ensures SoundFacts(Changed(l, id, version, change).value[id].facts, l)
  {
    var facts := l[id].facts;
    match change {
      case Claim(fact) =>
        RecordingKeepsSound(facts, fact, l);
      case Correct(previous, fact) =>
        var i := IndexOf(facts, previous).value;
        TakingBackKeepsSound(facts, i, l);
        forall f | f in facts[i := TakenBack(facts[i])] ensures f.id != fact.id {
          assert f in facts || f.id == facts[i].id;
        }
        RecordingKeepsSound(facts[i := TakenBack(facts[i])], fact.(supersedes := Some(previous)), l);
      case Withdraw(previous) =>
        TakingBackKeepsSound(facts, IndexOf(facts, previous).value, l);
      case _ =>
    }
  }

  lemma ChangeKeepsInv(l: Ledger, id: string, version: nat, change: Change)
    requires Inv(l) && FreshFact(l, id, change) && Changed(l, id, version, change).Ok?
    ensures Inv(Changed(l, id, version, change).value)
  {
    var e, next := l[id], Changed(l, id, version, change).value;
    FactsStaySound(l, id, version, change);
    if change.Addresses? {
      var values := if change.emails.Some? then change.emails.value else e.emails;
      NormalisedIsNormal(values);
    } else {
      SameEmailsOwnAlone(l, id, next[id]);
    }
    PutKeepsInv(l, id, next[id]);
  }

  lemma SameEmailsOwnAlone(l: Ledger, id: string, e: Entity)
    requires OwnsAlone(l) && id in l && Elements(e.emails) <= Elements(l[id].emails) && e.redirect == l[id].redirect
    ensures OwnsAlone(l[id := e])
  {
  }

  /** One fact was taken back for good, and otherwise facts stayed as they were. */
  ghost predicate TookBack(was: seq<Fact>, now: seq<Fact>, id: FactId) {
    && |now| == |was|
    && exists i :: 0 <= i < |was| && was[i].id == id
         && now[i].state == Withdrawn && !now[i].forEvidence
         && now[i] == was[i].(state := Withdrawn, forEvidence := now[i].forEvidence)
         && forall k | 0 <= k < |was| && k != i :: now[k] == was[k]
  }

  /** What a change leaves of the dossier it is made to: one field, or one fact more, or one taken back. */
  ghost predicate ChangedAs(was: Entity, now: Entity, change: Change) {
    match change
    case Rename(name) => now == was.(version := now.version, name := name)
    case Addresses(aliases, emails) =>
      && now == was.(version := now.version, aliases := now.aliases, emails := now.emails)
      && now.aliases == (if aliases.Some? then aliases.value else was.aliases)
      && var values := if emails.Some? then emails.value else was.emails;
      |now.emails| == |values| && forall i | 0 <= i < |values| :: Email(values[i]) == Some(now.emails[i])
    case Claim(fact) => now == was.(version := now.version, facts := was.facts + [fact])
    case Correct(previous, fact) =>
      && now == was.(version := now.version, facts := now.facts) && now.facts != []
      && TookBack(was.facts, now.facts[..|now.facts| - 1], previous)
      && now.facts[|now.facts| - 1] == fact.(supersedes := Some(previous))
    case Withdraw(previous) =>
      now == was.(version := now.version, facts := now.facts) && TookBack(was.facts, now.facts, previous)
    case Retire => now == was.(version := now.version, retired := true)
    case Restore => now == was.(version := now.version, retired := false)
  }

  /** When a change is made, beyond the version it is made to. */
  ghost predicate ChangeAllowed(l: Ledger, id: string, change: Change)
    requires id in l
  {
    var e := l[id];
    && e.redirect == None && (e.retired ==> change.Restore?)
    && match change
       case Addresses(_, emails) =>
         var values := if emails.Some? then emails.value else e.emails;
         && (forall v | v in values :: Email(v).Some?)
         && forall v, other | v in values && other in l && other != id && l[other].redirect == None ::
              Email(v).value !in l[other].emails
       case Claim(fact) => fact.target.Some? ==> Active(l, fact.target.value)
       case Correct(previous, fact) => Has(e.facts, previous) && (fact.target.Some? ==> Active(l, fact.target.value))
       case Withdraw(previous) => Has(e.facts, previous)
       case _ => true
  }

  lemma AddressesExactly(l: Ledger, id: string, values: seq<string>)
    ensures Normalised(values).Some? && !Taken(l, Normalised(values).value, Some(id)) <==>
      && (forall v | v in values :: Email(v).Some?)
      && forall v, other | v in values && other in l && other != id && l[other].redirect == None ::
           Email(v).value !in l[other].emails
  {
    NormalisedExactly(values);
    if Normalised(values).Some? {
      var addresses := Normalised(values).value;
      if v, other :|
        v in values && other in l && other != id && l[other].redirect == None && Email(v).value in l[other].emails {
        var i :| 0 <= i < |values| && values[i] == v;
        assert addresses[i] in addresses;
      }
      if other, a :|
        other in l && a in addresses && Some(other) != Some(id) && l[other].redirect == None && a in l[other].emails {
        var i :| 0 <= i < |addresses| && addresses[i] == a;
        assert values[i] in values;
      }
    }
  }

  lemma HasIndex(facts: seq<Fact>, id: FactId)
    ensures Has(facts, id) <==> IndexOf(facts, id).Some?
  {
  }

  lemma TakenBackAt(facts: seq<Fact>, id: FactId)
    requires IndexOf(facts, id).Some?
    ensures var i := IndexOf(facts, id).value; TookBack(facts, facts[i := TakenBack(facts[i])], id)
  {
  }

  /** A change is made exactly if it is allowed for the version it is made to. */
  lemma ChangeMadeExactly(l: Ledger, id: string, version: nat, change: Change)
    ensures Changed(l, id, version, change).Ok? <==> id in l && l[id].version == version && ChangeAllowed(l, id, change)
  {
    hide TakenBack, Taken, Normalised, IndexOf, Has;
    if id in l {
      match change
      case Addresses(_, emails) => AddressesExactly(l, id, if emails.Some? then emails.value else l[id].emails);
      case Correct(previous, fact) => HasIndex(l[id].facts, previous);
      case Withdraw(previous) => HasIndex(l[id].facts, previous);
      case _ =>
    }
  }

  /** It bumps the version, and touches no other dossier and nothing of this one but what it is for. */
  lemma ChangeMeans(l: Ledger, id: string, version: nat, change: Change)
    requires Changed(l, id, version, change).Ok?
    ensures var next := Changed(l, id, version, change).value;
      && id in l && id in next && next == l[id := next[id]] && next[id].version == version + 1
      && ChangedAs(l[id], next[id], change)
  {
    hide TookBack, TakenBack, Taken, Normalised, IndexOf;
    var facts := l[id].facts;
    match change
    case Addresses(_, emails) => NormalisedExactly(if emails.Some? then emails.value else l[id].emails);
    case Correct(previous, fact) =>
      var i := IndexOf(facts, previous).value;
      TakenBackAt(facts, previous);
      var more := facts[i := TakenBack(facts[i])] + [fact.(supersedes := Some(previous))];
      assert more[..|more| - 1] == facts[i := TakenBack(facts[i])];
    case Withdraw(previous) => TakenBackAt(facts, previous);
    case _ =>
  }

  // ----- Merging one identity into another -----

  /** One fact of the list being folded in. */
  function MergeFact(facts: seq<Fact>, f: Fact): seq<Fact> {
    match IndexOf(facts, f.id)
    case None => facts + [f]
    case Some(i) => if facts[i].state == Withdrawn && f.state == Confirmed then facts[i := f] else facts
  }

  /** Fold facts into a list: new ids go behind, and a confirmed copy takes a withdrawn one's place. */
  function MergeFacts(facts: seq<Fact>, more: seq<Fact>): seq<Fact>
    decreases more
  {
    if more == [] then facts
    else
      MergeFacts(MergeFact(facts, more[0]), more[1..])
  }

  function Retargeted(facts: seq<Fact>, old_: string, new_: string): (r: seq<Fact>)
    ensures |r| == |facts|
  {
    seq(|facts|, i requires 0 <= i < |facts| =>
      if facts[i].target == Some(old_) then facts[i].(target := Some(new_)) else facts[i])
  }

  function Hits(facts: seq<Fact>, target: string): nat {
    if facts == [] then 0 else (if facts[0].target == Some(target) then 1 else 0) + Hits(facts[1..], target)
  }

  predicate Mergeable(l: Ledger, id: string, target: string) {
    Active(l, id) && Active(l, target) && target != id && l[target].kind == l[id].kind
  }

  /** The target once it has taken over facts, names and addresses. */
  function Absorbed(target: Entity, e: Entity): Entity {
    target.(facts := MergeFacts(target.facts, e.facts),
            aliases := SortedSet(target.aliases + e.aliases + [e.name]),
            emails := SortedSet(target.emails + e.emails))
  }

  function Redirected(e: Entity, target: string): Entity {
    e.(redirect := Some(target))
  }

  function RetargetAll(l: Ledger, old_: string, new_: string): (r: Ledger)
    ensures r.Keys == l.Keys
  {
    map id | id in l :: l[id].(facts := Retargeted(l[id].facts, old_, new_),
      version := l[id].version + Hits(l[id].facts, old_))
  }

  function Merged(l: Ledger, id: string, target: string): (r: Ledger)
    requires Mergeable(l, id, target)
    ensures r.Keys == l.Keys
  {
    var moved := RetargetAll(l[target := Absorbed(l[target], l[id])][id := Redirected(l[id], target)], id, target);
    moved[id := Receipted(moved[id])][target := Receipted(moved[target])]
  }

  predicate Has(facts: seq<Fact>, id: FactId) {
    exists f | f in facts :: f.id == id
  }

  predicate Confirms(facts: seq<Fact>, id: FactId) {
    exists f | f in facts :: f.id == id && f.state == Confirmed
  }

  lemma MergeFactGathers(facts: seq<Fact>, f: Fact, id: FactId)
    requires DistinctFacts(facts)
    ensures DistinctFacts(MergeFact(facts, f))
    ensures Has(MergeFact(facts, f), id) <==> Has(facts, id) || f.id == id
    ensures Confirms(MergeFact(facts, f), id) <==> Confirms(facts, id) || (f.id == id && f.state == Confirmed)
    ensures |facts| <= |MergeFact(facts, f)|
    ensures forall k | 0 <= k < |facts| :: MergeFact(facts, f)[k].id == facts[k].id
  {
    var next, i := MergeFact(facts, f), IndexOf(facts, f.id);
    if i.Some? && next != facts {
      assert next == facts[i.value := f];
      assert next[i.value] in next && facts[i.value] in facts;
      forall g | g in facts && g != facts[i.value] ensures g in next {
        var k :| 0 <= k < |facts| && facts[k] == g;
        assert next[k] == g;
      }
    } else if i == None {
      assert f in next;
      assert forall g | g in facts :: g in next;
    } else {
      assert facts[i.value] in facts;
      if id == f.id && f.state == Confirmed {
        assert Confirms(facts, id);
      }
    }
  }

  /** A merge loses no fact, moves none, and keeps a fact confirmed exactly when either side had it so. */
  lemma {:induction false} MergeGathersFacts(facts: seq<Fact>, more: seq<Fact>, id: FactId)
    requires DistinctFacts(facts)
    ensures var merged := MergeFacts(facts, more);
            && DistinctFacts(merged)
            && (Has(merged, id) <==> Has(facts, id) || Has(more, id))
            && (Confirms(merged, id) <==> Confirms(facts, id) || Confirms(more, id))
            && |facts| <= |merged|
            && forall k | 0 <= k < |facts| :: merged[k].id == facts[k].id
    decreases more
  {
    hide MergeFact;
    if more != [] {
      MergeFactGathers(facts, more[0], id);
      MergeGathersFacts(MergeFact(facts, more[0]), more[1..], id);
      FirstOrBehind(more, id);
    }
  }

  lemma FirstOrBehind(more: seq<Fact>, id: FactId)
    requires more != []
    ensures Has(more, id) <==> more[0].id == id || Has(more[1..], id)
    ensures Confirms(more, id) <==> (more[0].id == id && more[0].state == Confirmed) || Confirms(more[1..], id)
  {
    assert more == [more[0]] + more[1..];
  }

  lemma {:induction false} MergeFactsKeep(facts: seq<Fact>, more: seq<Fact>, l: Ledger)
    requires SoundFacts(facts, l) && SoundFacts(more, l)
    ensures SoundFacts(MergeFacts(facts, more), l)
    decreases more
  {
    if more != [] {
      assert SoundFacts(more[1..], l) && SoundFacts([more[0]], l);
      MergeFactsKeep(MergeFact(facts, more[0]), more[1..], l);
    }
  }

  /** What a merge does to the identities, apart from facts, names and versions. */
  ghost predicate Redirects(l: Ledger, next: Ledger, id: string, target: string)
    requires id in l
  {
    next.Keys == l.Keys && forall x | x in l ::
      && next[x].id == l[x].id && next[x].kind == l[x].kind
      && next[x].redirect == (if x == id then Some(target) else l[x].redirect)
      && Elements(next[x].emails) == Elements(l[x].emails) + (if x == target then Elements(l[id].emails) else {})
  }

  lemma MergedRedirects(l: Ledger, id: string, target: string)
    requires Mergeable(l, id, target)
    ensures Redirects(l, Merged(l, id, target), id, target)
  {
    assert Elements(SortedSet(l[target].emails + l[id].emails)) == Elements(l[target].emails) + Elements(l[id].emails);
  }

  lemma RedirectKeepsForest(l: Ledger, next: Ledger, id: string, target: string)
    requires Forest(l) && KindsAgree(l) && Mergeable(l, id, target) && Redirects(l, next, id, target)
    ensures Forest(next) && KindsAgree(next)
  {
    var rank :| Ranked(l, rank);
    // Roots stay at the bottom, the merged root goes just above them, the rest above that.
    var later: map<string, nat> :=
      map x | x in l :: if l[x].redirect.Some? then (if x in rank then rank[x] else 0) + 2 else if x == id then 1
        else 0;
    forall x | x in next && next[x].redirect.Some?
      ensures next[x].redirect.value in next && later[x] > later[next[x].redirect.value]
    {
    }
    assert Ranked(next, later);
  }

  lemma RedirectKeepsOwners(l: Ledger, next: Ledger, id: string, target: string)
    requires OwnsAlone(l) && AllWellFormed(l) && Mergeable(l, id, target) && Redirects(l, next, id, target)
    ensures OwnsAlone(next) && AllWellFormed(next)
  {
    forall x | x in next ensures WellFormed(next[x], x) {
      assert WellFormed(l[x], x) && WellFormed(l[id], id);
      forall address | address in next[x].emails ensures Email(address) == Some(address) {
        assert address in Elements(next[x].emails);
        assert address in Elements(l[x].emails) + Elements(l[id].emails);
      }
    }
  }

  lemma RetargetedSound(facts: seq<Fact>, l: Ledger, id: string, target: string, next: Ledger)
    requires SoundFacts(facts, l) && id != target && target in next && next[target].redirect == None
    requires forall x | x in l && l[x].redirect == None && x != id :: x in next && next[x].redirect == None
    ensures SoundFacts(Retargeted(facts, id, target), next)
  {
    var moved := Retargeted(facts, id, target);
    forall f | f in moved ensures Aimed(f, next) && (f.forEvidence ==> f.state == Withdrawn) {
      var k :| 0 <= k < |facts| && moved[k] == f;
      assert facts[k] in facts && Aimed(facts[k], l);
    }
  }

  /** A merge redirects one root to another root of its kind and keeps everything else straight. */
  lemma MergeKeepsInv(l: Ledger, id: string, target: string)
    requires Inv(l) && Mergeable(l, id, target)
    ensures Inv(Merged(l, id, target))
  {
    var next := Merged(l, id, target);
    MergedRedirects(l, id, target);
    RedirectKeepsForest(l, next, id, target);
    RedirectKeepsOwners(l, next, id, target);
    forall x | x in next ensures SoundFacts(next[x].facts, next) {
      MergedSound(l, id, target, x);
    }
  }

  lemma MergedSound(l: Ledger, id: string, target: string, x: string)
    requires AllSound(l) && Mergeable(l, id, target) && x in l
    ensures SoundFacts(Merged(l, id, target)[x].facts, Merged(l, id, target))
  {
    var next := Merged(l, id, target);
    MergedRedirects(l, id, target);
    if x == target {
      MergeFactsKeep(l[target].facts, l[id].facts, l);
      RetargetedSound(MergeFacts(l[target].facts, l[id].facts), l, id, target, next);
    } else {
      RetargetedSound(l[x].facts, l, id, target, next);
    }
  }

  // ----- Splitting a dossier -----

  function Chosen(facts: seq<Fact>, ids: seq<FactId>): seq<Fact> {
    if facts == [] then []
    else (if facts[0].id in ids then [facts[0]] else []) + Chosen(facts[1..], ids)
  }

  function LeftBehind(facts: seq<Fact>, ids: seq<FactId>): (r: seq<Fact>)
    ensures |r| == |facts|
  {
    if facts == [] then []
    else [if facts[0].id in ids then TakenBack(facts[0]) else facts[0]] + LeftBehind(facts[1..], ids)
  }

  function Minus(xs: seq<string>, ys: seq<string>): seq<string> {
    if xs == [] then [] else (if xs[0] in ys then [] else [xs[0]]) + Minus(xs[1..], ys)
  }

  datatype SplitRequest = SplitRequest(name: string, facts: seq<FactId>, emails: seq<string>)

  predicate Splittable(l: Ledger, id: string, r: SplitRequest) {
    && Active(l, id) && r.name != "" && r.facts != []
    && (forall f | f in r.facts :: Has(l[id].facts, f))
    && forall address | address in r.emails :: address in l[id].emails
  }

  function Split(l: Ledger, id: string, r: SplitRequest, newId: string, path: string): Ledger
    requires Splittable(l, id, r)
  {
    var e := l[id];
    var made := Entity(newId, e.kind, r.name, [], SortedSet(r.emails), path, 2, Chosen(e.facts, r.facts), false,
      None, false);
    l[id := Receipted(e.(facts := LeftBehind(e.facts, r.facts), emails := Minus(e.emails, r.emails)))][newId := made]
  }

  lemma {:induction false} MinusElements(xs: seq<string>, ys: seq<string>)
    ensures Elements(Minus(xs, ys)) == Elements(xs) - Elements(ys)
  {
    if xs != [] {
      MinusElements(xs[1..], ys);
      assert xs == [xs[0]] + xs[1..];
      assert Elements(xs) == {xs[0]} + Elements(xs[1..]);
      assert Elements(Minus(xs, ys)) == (if xs[0] in ys then {} else {xs[0]}) + Elements(Minus(xs[1..], ys));
    }
  }

  lemma {:induction false} ChosenSound(facts: seq<Fact>, ids: seq<FactId>, l: Ledger)
    requires SoundFacts(facts, l)
    ensures SoundFacts(Chosen(facts, ids), l)
    ensures forall f | f in Chosen(facts, ids) :: f in facts
  {
    if facts != [] {
      assert SoundFacts(facts[1..], l);
      ChosenSound(facts[1..], ids, l);
      forall f | f in Chosen(facts[1..], ids) ensures f.id != facts[0].id {
        assert f in facts[1..];
      }
    }
  }

  lemma {:induction false} LeftBehindAt(facts: seq<Fact>, ids: seq<FactId>, k: nat)
    requires k < |facts|
    ensures LeftBehind(facts, ids)[k] == if facts[k].id in ids then TakenBack(facts[k]) else facts[k]
  {
    if k > 0 {
      LeftBehindAt(facts[1..], ids, k - 1);
    }
  }

  lemma LeftBehindSound(facts: seq<Fact>, ids: seq<FactId>, l: Ledger)
    requires SoundFacts(facts, l)
    ensures SoundFacts(LeftBehind(facts, ids), l)
  {
    var left := LeftBehind(facts, ids);
    forall k | 0 <= k < |facts|
      ensures left[k].id == facts[k].id && Aimed(left[k], l) && (left[k].forEvidence ==> left[k].state == Withdrawn)
    {
      LeftBehindAt(facts, ids, k);
      assert facts[k] in facts && Aimed(facts[k], l);
    }
  }

  lemma SplitKeepsInv(l: Ledger, id: string, r: SplitRequest, newId: string, path: string)
    requires Inv(l) && Splittable(l, id, r) && newId !in l
    ensures Inv(Split(l, id, r, newId, path))
  {
    var e, next := l[id], Split(l, id, r, newId, path);
    var middle := l[id := next[id]];
    assert WellFormed(e, id);
    ChosenSound(e.facts, r.facts, l);
    LeftBehindSound(e.facts, r.facts, l);
    MinusElements(e.emails, r.emails);
    SameEmailsOwnAlone(l, id, next[id]);
    assert Normal(next[id].emails) by {
      forall address | address in next[id].emails ensures Email(address) == Some(address) {
        assert address in Elements(next[id].emails);
      }
    }
    PutKeepsInv(l, id, next[id]);
    SortedSetNormal(r.emails);
    forall other, address | other in middle && address in r.emails && middle[other].redirect == None
      ensures address !in middle[other].emails
    {
      assert address in Elements(e.emails);
      assert other == id ==> address !in Elements(next[id].emails);
      assert other != id ==> address !in Elements(l[other].emails);
    }
    PutKeepsInv(middle, newId, next[newId]);
  }

  // ----- What a merge leaves alone -----

  lemma Untargeted(facts: seq<Fact>, old_: string, new_: string)
    requires forall f | f in facts :: f.target != Some(old_)
    ensures Retargeted(facts, old_, new_) == facts && Hits(facts, old_) == 0
  {
    if facts != [] {
      Untargeted(facts[1..], old_, new_);
    }
  }

  lemma MergedElsewhere(l: Ledger, id: string, target: string, other: string)
    requires Mergeable(l, id, target) && other in l && other != id && other != target
    requires forall f | f in l[other].facts :: f.target != Some(id)
    ensures Merged(l, id, target)[other] == l[other]
  {
    Untargeted(l[other].facts, id, target);
  }

  // ----- Following redirects -----

  /** The identity a redirect chain ends at. */
  ghost function Root(l: Ledger, id: string, rank: map<string, nat>): (r: string)
    requires id in l && Ranked(l, rank)
    ensures r in l && l[r].redirect == None
    decreases if id in rank then rank[id] else 0
  {
    if l[id].redirect == None then id else Root(l, l[id].redirect.value, rank)
  }

  lemma {:induction false} RootUnique(l: Ledger, id: string, a: map<string, nat>, b: map<string, nat>)
    requires id in l && Ranked(l, a) && Ranked(l, b)
    ensures Root(l, id, a) == Root(l, id, b)
    decreases if id in a then a[id] else 0
  {
    if l[id].redirect.Some? {
      RootUnique(l, l[id].redirect.value, a, b);
    }
  }

  lemma {:induction false} RootKind(l: Ledger, id: string, rank: map<string, nat>)
    requires id in l && Ranked(l, rank) && KindsAgree(l)
    ensures l[Root(l, id, rank)].kind == l[id].kind
    decreases if id in rank then rank[id] else 0
  {
    if l[id].redirect.Some? {
      RootKind(l, l[id].redirect.value, rank);
    }
  }

  /** The walk every reader of a redirect makes; it ends, and at an identity of the same kind. */
  method Follow(l: Ledger, start: string) returns (id: string)
    requires Inv(l) && start in l
    ensures id in l && l[id].redirect == None && l[id].kind == l[start].kind
    ensures forall rank | Ranked(l, rank) :: id == Root(l, start, rank)
  {
    ghost var rank: map<string, nat> :| Ranked(l, rank);
    id := start;
    while l[id].redirect.Some?
      invariant id in l && Root(l, id, rank) == Root(l, start, rank)
      decreases if id in rank then rank[id] else 0
    {
      id := l[id].redirect.value;
    }
    RootKind(l, start, rank);
    forall other | Ranked(l, other) ensures id == Root(l, start, other) {
      RootUnique(l, start, rank, other);
    }
  }

  // ----- What becomes of facts -----

  /** A fact as it was, but about whatever identity its target leads to now. */
  ghost predicate Followed(was: Fact, now: Fact, l: Ledger, rank: map<string, nat>)
    requires Ranked(l, rank)
  {
    && now == was.(target := now.target) && (now.target.Some? <==> was.target.Some?)
    && (was.target.Some? ==> was.target.value in l && now.target.value == Root(l, was.target.value, rank))
  }

  ghost predicate AllFollowed(was: seq<Fact>, now: seq<Fact>, l: Ledger, rank: map<string, nat>)
    requires Ranked(l, rank)
  {
    |now| == |was| && forall k | 0 <= k < |was| :: Followed(was[k], now[k], l, rank)
  }

  /** A fact stays, or gives way to a confirmed copy if it is withdrawn. */
  ghost predicate Takes(was: Fact, more: seq<Fact>, now: Fact) {
    if was.state == Withdrawn && Confirms(more, was.id) then now in more && now.id == was.id && now.state == Confirmed
    else now == was
  }

  /** Behind the facts there were come exactly those that are new. */
  ghost predicate Gathered(was: seq<Fact>, more: seq<Fact>, now: seq<Fact>) {
    && |was| <= |now| && (forall k | 0 <= k < |was| :: Takes(was[k], more, now[k]))
    && (forall j | |was| <= j < |now| :: now[j] in more && !Has(was, now[j].id))
    && forall f | f in more && !Has(was, f.id) :: f in now[|was|..]
  }

  lemma {:induction false} MergeGathers(was: seq<Fact>, more: seq<Fact>)
    requires DistinctFacts(was) && DistinctFacts(more)
    ensures Gathered(was, more, MergeFacts(was, more))
    decreases |more|
  {
    hide Takes;
    if more == [] {
      forall k | 0 <= k < |was| ensures Takes(was[k], more, was[k]) {
        NoneToTake(was[k]);
      }
    } else {
      var f, rest := more[0], more[1..];
      var next := MergeFact(was, f);
      assert more == [f] + rest;
      MergeFactGathers(was, f, f.id);
      assert DistinctFacts(rest) by {
        assert forall k | 0 <= k < |rest| :: rest[k] == more[k + 1];
      }
      MergeGathers(next, rest);
      GatheredOneMore(was, f, rest, MergeFacts(next, rest));
    }
  }

  lemma NoneToTake(was: Fact)
    ensures Takes(was, [], was)
  {
  }

  lemma ConfirmedIsThere(facts: seq<Fact>, id: FactId)
    ensures Confirms(facts, id) ==> Has(facts, id)
  {
  }

  lemma TakesOneMore(was: Fact, f: Fact, rest: seq<Fact>, next: Fact, now: Fact)
    requires !Has(rest, f.id) && Takes(next, rest, now)
    requires next == if was.id == f.id && was.state == Withdrawn && f.state == Confirmed then f else was
    ensures Takes(was, [f] + rest, now)
  {
    assert f in [f] + rest && forall g | g in rest :: g in [f] + rest;
    assert Confirms([f] + rest, was.id) <==> (f.id == was.id && f.state == Confirmed) || Confirms(rest, was.id);
    ConfirmedIsThere(rest, f.id);
  }

  lemma MergeFactAt(was: seq<Fact>, f: Fact, k: nat)
    requires DistinctFacts(was) && k < |was|
    ensures |MergeFact(was, f)| == if Has(was, f.id) then |was| else |was| + 1
    ensures MergeFact(was, f)[k] ==
      if was[k].id == f.id && was[k].state == Withdrawn && f.state == Confirmed then f else was[k]
    ensures !Has(was, f.id) ==> MergeFact(was, f)[|was|] == f
  {
    assert was[k] in was;
  }

  lemma GatheredOneMore(was: seq<Fact>, f: Fact, rest: seq<Fact>, now: seq<Fact>)
    requires DistinctFacts(was) && DistinctFacts([f] + rest) && Gathered(MergeFact(was, f), rest, now)
    ensures Gathered(was, [f] + rest, now)
  {
    hide Takes;
    var next, more := MergeFact(was, f), [f] + rest;
    assert !Has(rest, f.id) by {
      forall g | g in rest ensures g.id != f.id {
        var k :| 0 <= k < |rest| && rest[k] == g;
        assert more[k + 1] == g && more[0] == f;
      }
    }
    forall k | 0 <= k < |was| ensures k < |next| && Takes(was[k], more, now[k]) {
      MergeFactAt(was, f, k);
      TakesOneMore(was[k], f, rest, next[k], now[k]);
    }
    forall id ensures Has(next, id) <==> Has(was, id) || f.id == id {
      MergeFactGathers(was, f, id);
    }
    NewBehind(was, f, rest, next, now);
  }

  lemma NewBehind(was: seq<Fact>, f: Fact, rest: seq<Fact>, next: seq<Fact>, now: seq<Fact>)
    requires next == MergeFact(was, f) && |next| <= |now| && !Has(rest, f.id) && DistinctFacts(was)
    requires forall id :: Has(next, id) <==> Has(was, id) || f.id == id
    requires forall k | 0 <= k < |next| :: Takes(next[k], rest, now[k])
    requires forall j | |next| <= j < |now| :: now[j] in rest && !Has(next, now[j].id)
    requires forall g | g in rest && !Has(next, g.id) :: g in now[|next|..]
    ensures |was| <= |now|
    ensures forall j | |was| <= j < |now| :: now[j] in [f] + rest && !Has(was, now[j].id)
    ensures forall g | g in [f] + rest && !Has(was, g.id) :: g in now[|was|..]
  {
    var more := [f] + rest;
    if !Has(was, f.id) {
      assert next == was + [f];
      assert Takes(next[|was|], rest, now[|was|]);
      ConfirmedIsThere(rest, f.id);
      assert now[|was|] == f;
      assert now[|was|..] == [f] + now[|next|..];
    } else {
      assert |next| == |was|;
    }
  }

  lemma TargetFollowed(l: Ledger, id: string, target: string, rank: map<string, nat>, facts: seq<Fact>, k: nat)
    requires Mergeable(l, id, target) && Ranked(Merged(l, id, target), rank) && k < |facts| && Aimed(facts[k], l)
    ensures Followed(facts[k], Retargeted(facts, id, target)[k], Merged(l, id, target), rank)
  {
    hide Merged, Retargeted;
    MergedRedirects(l, id, target);
    RetargetedAt(facts, id, target, k);
    if facts[k].target == Some(id) {
      assert Root(Merged(l, id, target), target, rank) == target;
    }
  }

  lemma RetargetedAt(facts: seq<Fact>, id: string, target: string, k: nat)
    requires k < |facts|
    ensures Retargeted(facts, id, target)[k] ==
      if facts[k].target == Some(id) then facts[k].(target := Some(target)) else facts[k]
  {
  }

  lemma FactsOfMerged(l: Ledger, id: string, target: string, x: string)
    requires Mergeable(l, id, target) && x in l
    ensures Merged(l, id, target)[x].facts ==
      Retargeted(if x == target then MergeFacts(l[target].facts, l[id].facts) else l[x].facts, id, target)
  {
  }

  /**
   A merge keeps every fact of every dossier but the target in its place, and there it gathers the
   facts of both: each as it was, and about the identity its target leads to now.
   */
  lemma MergeFollowsTargets(l: Ledger, id: string, target: string, rank: map<string, nat>)
    returns (gathered: seq<Fact>)
    requires Inv(l) && Mergeable(l, id, target) && Ranked(Merged(l, id, target), rank)
    ensures var next := Merged(l, id, target);
      && (forall x | x in l && x != target :: AllFollowed(l[x].facts, next[x].facts, next, rank))
      && Gathered(l[target].facts, l[id].facts, gathered)
      && AllFollowed(gathered, next[target].facts, next, rank)
  {
    hide Merged, Retargeted, Followed, Gathered;
    var next := Merged(l, id, target);
    gathered := MergeFacts(l[target].facts, l[id].facts);
    MergeGathers(l[target].facts, l[id].facts);
    forall x | x in l && x != target ensures AllFollowed(l[x].facts, next[x].facts, next, rank) {
      FactsOfMerged(l, id, target, x);
      forall k | 0 <= k < |l[x].facts| ensures Followed(l[x].facts[k], next[x].facts[k], next, rank) {
        assert l[x].facts[k] in l[x].facts;
        TargetFollowed(l, id, target, rank, l[x].facts, k);
      }
    }
    FactsOfMerged(l, id, target, target);
    MergeFactsKeep(l[target].facts, l[id].facts, l) by {
      assert SoundFacts(l[target].facts, l) && SoundFacts(l[id].facts, l);
    }
    forall k | 0 <= k < |gathered| ensures Followed(gathered[k], next[target].facts[k], next, rank) {
      assert gathered[k] in gathered;
      TargetFollowed(l, id, target, rank, gathered, k);
    }
  }

  lemma {:induction false} HitsExactly(facts: seq<Fact>, target: string)
    ensures Hits(facts, target) == 0 <==> forall f | f in facts :: f.target != Some(target)
  {
    if facts != [] {
      HitsExactly(facts[1..], target);
      assert facts == [facts[0]] + facts[1..];
    }
  }

  /**
   Besides facts, a merge touches versions, the redirect of the merged dossier, and names and addresses
   of the target. A version grows exactly where the merge is recorded, or a fact was about the merged one.
   */
  lemma MergeTouches(l: Ledger, id: string, target: string, x: string)
    requires Mergeable(l, id, target) && x in l
    ensures var was, now := l[x], Merged(l, id, target)[x];
      && now == was.(facts := now.facts, version := now.version, redirect := now.redirect, aliases := now.aliases,
                     emails := now.emails)
      && now.redirect == (if x == id then Some(target) else was.redirect)
      && (x != target ==> now.aliases == was.aliases && now.emails == was.emails)
      && (x == target ==>
            && Elements(now.emails) == Elements(was.emails) + Elements(l[id].emails)
            && Elements(now.aliases) == Elements(was.aliases) + Elements(l[id].aliases) + {l[id].name})
      && was.version <= now.version
      && (now.version == was.version <==> x != id && x != target && forall f | f in was.facts :: f.target != Some(id))
  {
    MergedRedirects(l, id, target);
    HitsExactly(l[x].facts, id);
    var t, e := l[target], l[id];
    assert Elements(t.aliases + e.aliases + [e.name]) == Elements(t.aliases) + Elements(e.aliases) + {e.name};
    assert Elements(t.emails + e.emails) == Elements(t.emails) + Elements(e.emails);
  }

  lemma {:induction false} ChosenExactly(facts: seq<Fact>, ids: seq<FactId>, f: Fact)
    ensures f in Chosen(facts, ids) <==> f in facts && f.id in ids
  {
    if facts != [] {
      ChosenExactly(facts[1..], ids, f);
      assert facts == [facts[0]] + facts[1..];
    }
  }

  /**
   A split gives the new dossier copies of exactly the chosen facts and addresses. The old one keeps
   every fact in its place, the chosen ones withdrawn for good, and the other addresses.
   */
  lemma SplitMeans(l: Ledger, id: string, r: SplitRequest, newId: string, path: string)
    requires Splittable(l, id, r) && newId !in l
    ensures var next := Split(l, id, r, newId, path);
      && next.Keys == l.Keys + {newId} && (forall x | x in l && x != id :: next[x] == l[x])
      && var was, now, made := l[id], next[id], next[newId];
      && now == was.(facts := now.facts, emails := now.emails, version := was.version + 1)
      && |now.facts| == |was.facts|
      && (forall k | 0 <= k < |was.facts| :: now.facts[k] ==
            if was.facts[k].id in r.facts then was.facts[k].(state := Withdrawn, forEvidence := false)
            else was.facts[k])
      && Elements(now.emails) == Elements(was.emails) - Elements(r.emails)
      && made == Entity(newId, was.kind, r.name, [], made.emails, path, 2, made.facts, false, None, false)
      && Elements(made.emails) == Elements(r.emails)
      && forall f :: f in made.facts <==> f in was.facts && f.id in r.facts
  {
    hide Chosen, LeftBehind;
    MinusElements(l[id].emails, r.emails);
    forall k | 0 <= k < |l[id].facts|
      ensures LeftBehind(l[id].facts, r.facts)[k] ==
        if l[id].facts[k].id in r.facts then TakenBack(l[id].facts[k]) else l[id].facts[k]
    {
      LeftBehindAt(l[id].facts, r.facts, k);
    }
    forall f ensures f in Chosen(l[id].facts, r.facts) <==> f in l[id].facts && f.id in r.facts {
      ChosenExactly(l[id].facts, r.facts, f);
    }
  }
}
