/** The service that applies identity decisions and contributions to the ledger it holds. */
module DossierService {
  import opened Results
  import opened DossierLedger
  import opened DossierContribution
  import NoteLinks
  import Seqs

  class EntityService {
    var entities: Ledger

    constructor ()
      ensures entities == map[] && Inv(entities)
    {
      entities := map[];
      new;
      assert Ranked(entities, map[]);
    }

    /** Create a dossier; an address that belongs to another one is refused. */
    method Create(id: string, kind: Kind, name: string, aliases: seq<string>, emails: seq<string>, path: string)
      returns (problem: Option<Problem>)
      requires Inv(entities) && id !in entities
      modifies this
      ensures Inv(entities)
      ensures match Make(old(entities), id, kind, name, aliases, emails, path, false)
              case Err(p) => problem == Some(p) && entities == old(entities)
              case Ok(next) => problem == None && id in next && entities == next[id := Receipted(next[id])]
      ensures problem == None <==> Normalised(emails).Some? && !Taken(old(entities), Normalised(emails).value, None)
      ensures problem == None ==>
                && entities.Keys == old(entities).Keys + {id} && entities - {id} == old(entities)
                && entities[id].kind == kind && entities[id].name == name && entities[id].aliases == aliases
                && entities[id].path == path && !entities[id].automatic
                && entities[id].facts == [] && entities[id].redirect == None && entities[id].version == 2
                && Elements(entities[id].emails) == Elements(Normalised(emails).value)
    {
      hide Inv, Taken, SortedSet;
      var made := Make(entities, id, kind, name, aliases, emails, path, false);
      if made.Err? {
        return Some(made.error);
      }
      MadeKeepsInv(entities, id, kind, name, aliases, emails, path);
      entities := made.value[id := Receipted(made.value[id])];
      return None;
    }

    static lemma MadeKeepsInv(l: Ledger, id: string, kind: Kind, name: string, aliases: seq<string>,
                              emails: seq<string>, path: string)
      requires Inv(l) && id !in l && Make(l, id, kind, name, aliases, emails, path, false).Ok?
      ensures var made := Make(l, id, kind, name, aliases, emails, path, false).value;
        id in made && Inv(made[id := Receipted(made[id])])
    {
      hide Make, KindsAgree, Forest;
      MakeKeepsInv(l, id, kind, name, aliases, emails, path, false);
      var made := Make(l, id, kind, name, aliases, emails, path, false).value;
      MadeIsThere(l, id, kind, name, aliases, emails, path);
      SameEmailsOwnAlone(made, id, Receipted(made[id]));
      PutKeepsInv(made, id, Receipted(made[id]));
    }

    static lemma MadeIsThere(l: Ledger, id: string, kind: Kind, name: string, aliases: seq<string>,
                             emails: seq<string>, path: string)
      requires Make(l, id, kind, name, aliases, emails, path, false).Ok?
      ensures id in Make(l, id, kind, name, aliases, emails, path, false).value
    {
    }

    /** One requested change to one dossier. */
    method Change(id: string, version: nat, change: Change) returns (problem: Option<Problem>)
      requires Inv(entities) && FreshFact(entities, id, change)
      modifies this
      ensures Inv(entities)
      ensures match Changed(old(entities), id, version, change)
              case Err(p) => problem == Some(p) && entities == old(entities)
              case Ok(next) => problem == None && entities == next
    {
      var next := Changed(entities, id, version, change);
      if next.Err? {
        return Some(next.error);
      }
      ChangeKeepsInv(entities, id, version, change);
      entities := next.value;
      return None;
    }

    /** Fold one dossier's facts into another's, by position. */
    static method Fold(facts: seq<Fact>, more: seq<Fact>) returns (merged: seq<Fact>)
      requires DistinctFacts(facts)
      ensures merged == MergeFacts(facts, more)
    {
      hide DistinctFacts, MergeFact, Places;
      var positions: map<FactId, nat> := map[];
      NoPlaces();
      for i := 0 to |facts|
        invariant Places(facts[..i], positions)
      {
        PlacesSnoc(facts, i, positions);
        positions := positions[facts[i].id := i];
      }
      assert facts[..|facts|] == facts;
      merged := facts;
      for i := 0 to |more|
        invariant DistinctFacts(merged) && Places(merged, positions)
        invariant MergeFacts(merged, more[i..]) == MergeFacts(facts, more)
      {
        var fact := more[i];
        assert more[i..][1..] == more[i + 1..];
        FoldStep(merged, positions, fact);
        if fact.id !in positions {
          positions := positions[fact.id := |merged|];
          merged := merged + [fact];
        } else {
          var index := positions[fact.id];
          if merged[index].state == Withdrawn && fact.state == Confirmed {
            merged := merged[index := fact];
          }
        }
      }
    }

    /** `positions` is where each fact id last stands in the list. */
    static ghost predicate Places(facts: seq<Fact>, positions: map<FactId, nat>) {
      && (forall id | id in positions :: positions[id] < |facts| && facts[positions[id]].id == id)
      && forall k | 0 <= k < |facts| :: facts[k].id in positions
    }

    static lemma NoPlaces()
      ensures Places([], map[])
    {
    }

    static lemma PlacesSnoc(facts: seq<Fact>, i: nat, positions: map<FactId, nat>)
      requires i < |facts| && Places(facts[..i], positions)
      ensures Places(facts[..i + 1], positions[facts[i].id := i])
    {
    }

    static lemma FoldStep(merged: seq<Fact>, positions: map<FactId, nat>, fact: Fact)
      requires DistinctFacts(merged) && Places(merged, positions)
      ensures DistinctFacts(MergeFact(merged, fact))
      ensures fact.id !in positions ==>
        MergeFact(merged, fact) == merged + [fact] && Places(merged + [fact], positions[fact.id := |merged|])
      ensures fact.id in positions ==> positions[fact.id] < |merged|
      ensures fact.id in positions ==>
        var i := positions[fact.id];
        var next := if merged[i].state == Withdrawn && fact.state == Confirmed then merged[i := fact] else merged;
        MergeFact(merged, fact) == next && Places(next, positions)
    {
      hide Has, Confirms, DistinctFacts;
      MergeFactGathers(merged, fact, fact.id);
    }

    /** Point the facts of one dossier at the new identity, counting every one that moved. */
    static method Retarget(facts: seq<Fact>, from: string, to: string) returns (moved: seq<Fact>, hits: nat)
      ensures moved == Retargeted(facts, from, to) && hits == Hits(facts, from)
    {
      moved, hits := [], 0;
      for i := 0 to |facts|
        invariant moved == Retargeted(facts[..i], from, to)
        invariant hits + Hits(facts[i..], from) == Hits(facts, from)
      {
        assert facts[i..][1..] == facts[i + 1..];
        if facts[i].target == Some(from) {
          moved := moved + [facts[i].(target := Some(to))];
          hits := hits + 1;
        } else {
          moved := moved + [facts[i]];
        }
      }
      assert facts[..|facts|] == facts;
    }

    /** Point the facts of every dossier at the new identity. */
    static method RetargetEverywhere(l: Ledger, from: string, to: string) returns (moved: Ledger)
      ensures moved == RetargetAll(l, from, to)
    {
      moved := l;
      var left := l.Keys;
      while left != {}
        invariant left <= l.Keys == moved.Keys
        invariant forall x | x in left :: moved[x] == l[x]
        invariant forall x | x in l.Keys - left :: moved[x] == RetargetAll(l, from, to)[x]
        decreases left
      {
        var other :| other in left;
        var facts, hits := Retarget(l[other].facts, from, to);
        moved := moved[other := l[other].(facts := facts, version := l[other].version + hits)];
        left := left - {other};
      }
    }

    /** Merge `id` into `target`; the id stays as a redirect. */
    method Merge(id: string, target: string) returns (problem: Option<Problem>)
      requires Inv(entities)
      modifies this
      ensures Inv(entities)
      ensures if Mergeable(old(entities), id, target)
              then problem == None && entities == Merged(old(entities), id, target)
              else problem.Some? && entities == old(entities)
    {
      if !Mergeable(entities, id, target) {
        return Some(Invalid("choose another active dossier of the same kind"));
      }
      MergeKeepsInv(entities, id, target);
      assert SoundFacts(entities[target].facts, entities);
      var entity, into := entities[id], entities[target];
      var facts := Fold(into.facts, entity.facts);
      into := into.(facts := facts, aliases := SortedSet(into.aliases + entity.aliases + [entity.name]),
                    emails := SortedSet(into.emails + entity.emails));
      var moved := RetargetEverywhere(entities[target := into][id := entity.(redirect := Some(target))], id, target);
      moved := moved[id := Receipted(moved[id])];
      entities := moved[target := Receipted(moved[target])];
      return None;
    }

    /** Copies of the chosen facts, and what the original dossier keeps: every fact, the chosen ones withdrawn. */
    static method Separate(facts: seq<Fact>, ids: seq<FactId>) returns (selected: seq<Fact>, rest: seq<Fact>)
      ensures selected == Chosen(facts, ids) && rest == LeftBehind(facts, ids)
    {
      selected, rest := [], [];
      hide Chosen, LeftBehind;
      NoneSeparated(facts, ids);
      for i := 0 to |facts|
        invariant selected + Chosen(facts[i..], ids) == Chosen(facts, ids)
        invariant rest + LeftBehind(facts[i..], ids) == LeftBehind(facts, ids)
      {
        SeparateOne(facts, ids, i, selected, rest);
        if facts[i].id in ids {
          selected := selected + [facts[i]];
          rest := rest + [facts[i].(state := Withdrawn, forEvidence := false)];
        } else {
          rest := rest + [facts[i]];
        }
      }
    }

    static lemma NoneSeparated(facts: seq<Fact>, ids: seq<FactId>)
      ensures facts[0..] == facts && Chosen(facts[|facts|..], ids) == [] && LeftBehind(facts[|facts|..], ids) == []
    {
    }

    static lemma SeparateOne(facts: seq<Fact>, ids: seq<FactId>, i: nat, selected: seq<Fact>, rest: seq<Fact>)
      requires i < |facts|
      ensures var chosen := if facts[i].id in ids then selected + [facts[i]] else selected;
        chosen + Chosen(facts[i + 1..], ids) == selected + Chosen(facts[i..], ids)
      ensures var left := if facts[i].id in ids then TakenBack(facts[i]) else facts[i];
        rest + [left] + LeftBehind(facts[i + 1..], ids) == rest + LeftBehind(facts[i..], ids)
    {
      assert facts[i..][1..] == facts[i + 1..];
      var left := if facts[i].id in ids then TakenBack(facts[i]) else facts[i];
      Seqs.Assoc(rest, [left], LeftBehind(facts[i + 1..], ids));
      Seqs.Assoc(selected, [facts[i]], Chosen(facts[i + 1..], ids));
      assert [] + Chosen(facts[i + 1..], ids) == Chosen(facts[i + 1..], ids);
    }

    /** Separate chosen facts and addresses into a dossier of their own. */
    method SplitOff(id: string, r: SplitRequest, newId: string, path: string) returns (problem: Option<Problem>)
      requires Inv(entities) && newId !in entities
      modifies this
      ensures Inv(entities)
      ensures if Splittable(old(entities), id, r)
              then problem == None && entities == Split(old(entities), id, r, newId, path)
              else problem.Some? && entities == old(entities)
    {
      if !Splittable(entities, id, r) {
        return Some(Invalid("split requires a new name and facts from this dossier"));
      }
      SplitKeepsInv(entities, id, r, newId, path);
      var entity := entities[id];
      var selected, rest := Separate(entity.facts, r.facts);
      var made := Entity(newId, entity.kind, r.name, [], SortedSet(r.emails), path, 1, selected, false, None, false);
      var reduced := entity.(facts := rest, emails := Minus(entity.emails, r.emails));
      entities := entities[id := Receipted(reduced)][newId := Receipted(made)];
      return None;
    }
  
    // ----- Contributions -----

    /** `{address: entity for entity in entities if not redirected}` */
    static method EmailIndex(l: Ledger) returns (byEmail: map<string, string>)
      requires OwnsAlone(l)
      ensures IsIndex(l, byEmail)
    {
      byEmail := map[];
      var left := l.Keys;
      while left != {}
        invariant left <= l.Keys
        invariant forall a | a in byEmail ::
          byEmail[a] in l && byEmail[a] !in left && l[byEmail[a]].redirect == None && a in l[byEmail[a]].emails
        invariant forall id, a | id in l && id !in left && a in l[id].emails && l[id].redirect == None ::
          a in byEmail && byEmail[a] == id
        decreases left
      {
        var id :| id in left;
        left := left - {id};
        if l[id].redirect == None {
          byEmail := IndexOne(l, byEmail, id, left);
        }
      }
    }

    static method IndexOne(l: Ledger, byEmail: map<string, string>, id: string, ghost left: set<string>)
      returns (more: map<string, string>)
      requires OwnsAlone(l) && id in l && l[id].redirect == None && id !in left
      requires forall a | a in byEmail ::
        byEmail[a] in l && byEmail[a] !in left && l[byEmail[a]].redirect == None && a in l[byEmail[a]].emails
      requires forall other, a | other in l && other !in left && other != id && a in l[other].emails
        && l[other].redirect == None ::
        a in byEmail && byEmail[a] == other
      ensures forall a | a in more ::
        more[a] in l && more[a] !in left && l[more[a]].redirect == None && a in l[more[a]].emails
      ensures forall other, a | other in l && other !in left && a in l[other].emails && l[other].redirect == None ::
        a in more && more[a] == other
    {
      more := byEmail;
      for i := 0 to |l[id].emails|
        invariant forall a | a in more ::
          more[a] in l && more[a] !in left && l[more[a]].redirect == None && a in l[more[a]].emails
        invariant forall other, a | other in l && other !in left && other != id && a in l[other].emails
          && l[other].redirect == None ::
          a in more && more[a] == other
        invariant forall k | 0 <= k < i :: l[id].emails[k] in more && more[l[id].emails[k]] == id
      {
        assert l[id].emails[i] in Elements(l[id].emails);
        more := more[l[id].emails[i] := id];
      }
    }

    /** `{path without ".md": entity}` */
    static method PathIndex(l: Ledger) returns (byPath: map<string, string>)
      requires forall a, b | a in l && b in l && a != b ::
        NoteLinks.WithoutMd(l[a].path) != NoteLinks.WithoutMd(l[b].path)
      ensures IsPathIndex(l, byPath)
    {
      byPath := map[];
      var left := l.Keys;
      while left != {}
        invariant left <= l.Keys
        invariant forall p | p in byPath ::
          byPath[p] in l && byPath[p] !in left && NoteLinks.WithoutMd(l[byPath[p]].path) == p
        invariant forall id | id in l && id !in left ::
          NoteLinks.WithoutMd(l[id].path) in byPath && byPath[NoteLinks.WithoutMd(l[id].path)] == id
        decreases left
      {
        var id :| id in left;
        left := left - {id};
        byPath := byPath[NoteLinks.WithoutMd(l[id].path) := id];
      }
    }

    /** An identity nobody has: longer than every one in use. */
    static method NewId(l: Ledger) returns (id: string)
      ensures id !in l
    {
      id := "0";
      var left := l.Keys;
      while left != {}
        invariant left <= l.Keys
        invariant forall used | used in l.Keys - left :: |used| < |id|
        decreases left
      {
        var used :| used in left;
        left := left - {used};
        if |used| >= |id| {
          id := used + "0";
        }
      }
    }

    /** Who one frontmatter value mentions; an unknown address that is not suppressed gets a dossier. */
    method Reach(ghost b: Basis, ghost x: string, key: string, value: string, ghost j: nat, fields: set<string>,
                 suppressed: set<string>, byPath: map<string, string>, byEmail: map<string, string>)
      returns (found: Option<string>, more: map<string, string>)
      requires ValidBasis(b) && Ongoing(b, entities, byEmail)
      requires b.byPath == byPath && b.fields == fields && b.suppressed == suppressed
      requires x in b.notes && j < |b.notes[x].values| && b.notes[x].values[j] == (key, value)
      modifies this
      ensures Ongoing(b, entities, more) && Later(b, old(entities), byEmail, entities, more)
      ensures Owned(b, more, MentionAt(b, b.notes[x], j))
      ensures found == Reached(b, more, MentionAt(b, b.notes[x], j))
      ensures found.Some? ==> found.value in entities
    {
      hide Inv, Grown, IsIndex, Gathering, Wanted, Ranked, Later, IsPathIndex;
      var mention := MentionOf(key, value, fields);
      assert mention == MentionAt(b, b.notes[x], j);
      found, more := None, byEmail;
      LaterReflexive(b, entities, byEmail);
      match mention {
        case Link(path) =>
          if path in byPath {
            PathIndexed(b, path);
            LinkFollowed(b, entities, byPath[path]);
            var id := Follow(entities, byPath[path]);
            found := Some(id);
          }
        case Address(address) =>
          if address in byEmail {
            OwnerIndexed(b, entities, byEmail, address);
            found := Some(byEmail[address]);
          } else if address !in suppressed {
            EmailIdempotent(value);
            WantedHere(b, x, j, address);
            var id := NewId(entities);
            var path := "People/" + address + " " + id + ".md";
            PersonAdded(b, entities, byEmail, address, id, path);
            entities := entities[id := Person(address, id, path)];
            more := byEmail[address := id];
            found := Some(id);
          }
        case NoMention =>
      }
    }

    static lemma PathIndexed(b: Basis, path: string)
      requires ValidBasis(b) && path in b.byPath
      ensures b.byPath[path] in b.start
    {
    }

    /** Everyone a note mentions, each once, leaving out retired dossiers. */
    method MentionedBy(ghost b: Basis, ghost x: string, note: Note, fields: set<string>, suppressed: set<string>,
                       byPath: map<string, string>, byEmail: map<string, string>)
      returns (mentions: set<string>, more: map<string, string>)
      requires ValidBasis(b) && Ongoing(b, entities, byEmail)
      requires b.byPath == byPath && b.fields == fields && b.suppressed == suppressed
      requires x in b.notes && b.notes[x] == note
      modifies this
      ensures Ongoing(b, entities, more) && Later(b, old(entities), byEmail, entities, more)
      ensures Collected(b, more, note, |note.values|, mentions)
      ensures forall id | id in mentions :: id in entities
    {
      hide Inv, Grown, IsIndex, Gathering, Ranked, Mentions, Reached, Resolved, IsPathIndex, MentionAt, MentionOf;
      mentions, more := {}, byEmail;
      LaterReflexive(b, entities, byEmail);
      CollectedNone(b, byEmail, note);
      for i := 0 to |note.values|
        invariant Ongoing(b, entities, more) && Later(b, old(entities), byEmail, entities, more)
        invariant Collected(b, more, note, i, mentions)
        invariant forall id | id in mentions :: id in entities
      {
        ghost var before, known, had := entities, more, mentions;
        var found;
        found, more := Reach(b, x, note.values[i].0, note.values[i].1, i, fields, suppressed, byPath, more);
        LaterTransitive(b, old(entities), byEmail, before, known, entities, more);
        if found.Some? {
          RetiredKept(b, entities, found.value);
          if !entities[found.value].retired {
            mentions := mentions + {found.value};
          }
        }
        CollectedMore(b, before, known, entities, more, note, i, had, mentions);
      }
    }

    static lemma CollectedNone(b: Basis, byEmail: map<string, string>, note: Note)
      requires ValidBasis(b)
      ensures Collected(b, byEmail, note, 0, {})
    {
    }

    /** Record a metadata fact on each mentioned dossier that does not have it yet. */
    method AddFacts(ghost b: Basis, note: Note, mentions: set<string>, ghost byEmail: map<string, string>)
      requires ValidBasis(b) && Ongoing(b, entities, byEmail) && note.id in b.notes && b.notes[note.id] == note
      requires Collected(b, byEmail, note, |note.values|, mentions) && forall id | id in mentions :: id in entities
      modifies this
      ensures Ongoing(b, entities, byEmail) && Later(b, old(entities), byEmail, entities, byEmail)
      ensures Dealt(b, entities, byEmail, note)
    {
      hide Inv, Grown, IsIndex, Gathering, Ranked, Reached, Resolved, IsPathIndex, MentionAt, MentionOf, Aimed;
      LaterReflexive(b, entities, byEmail);
      var left := mentions;
      while left != {}
        invariant left <= mentions
        invariant Ongoing(b, entities, byEmail) && Later(b, old(entities), byEmail, entities, byEmail)
        invariant forall id | id in mentions :: id in entities
        invariant forall id | id in mentions - left :: Has(entities[id].facts, MetaId(note, id))
        decreases left
      {
        var id :| id in left;
        ghost var before := entities;
        LaterReflexive(b, before, byEmail);
        CollectedAll(b, byEmail, note, mentions, id);
        if !Has(entities[id].facts, MetaId(note, id)) {
          var fact := MetaFact(note, id);
          FactAdded(b, entities, byEmail, note.id, id);
          entities := entities[id := WithFact(entities[id], fact)];
          assert fact in entities[id].facts;
        }
        LaterTransitive(b, old(entities), byEmail, before, byEmail, entities, byEmail);
        HasStays(b, before, byEmail, entities, note, mentions - left);
        left := left - {id};
      }
      forall id | Mentions(b, byEmail, note, id) ensures id in entities && Has(entities[id].facts, MetaId(note, id)) {
        CollectedAll(b, byEmail, note, mentions, id);
      }
    }

    static lemma HasStays(b: Basis, l: Ledger, byEmail: map<string, string>, l2: Ledger, note: Note, ids: set<string>)
      requires Later(b, l, byEmail, l2, byEmail)
      requires forall id | id in ids :: id in l && Has(l[id].facts, MetaId(note, id))
      ensures forall id | id in ids :: id in l2 && Has(l2[id].facts, MetaId(note, id))
    {
      forall id | id in ids ensures id in l2 && Has(l2[id].facts, MetaId(note, id)) {
        var f :| f in l[id].facts && f.id == MetaId(note, id);
        assert f in l2[id].facts;
      }
    }

    /** Withdraw what lost its note version, and bring back what got it again. */
    method Settle(notes: Notes)
      requires Inv(entities)
      modifies this
      ensures Inv(entities) && entities == SettledLedger(old(entities), notes)
    {
      hide Inv, SettledEntity;
      ghost var start := entities;
      SettlingKeepsInv(start, notes);
      var left := entities.Keys;
      while left != {}
        invariant left <= entities.Keys == start.Keys
        invariant forall id | id in left :: entities[id] == start[id]
        invariant forall id | id in start.Keys - left :: entities[id] == SettledEntity(start[id], notes)
        decreases left
      {
        var id :| id in left;
        var settled := SettleOne(entities[id], notes);
        entities := entities[id := settled];
        left := left - {id};
      }
      assert entities == SettledLedger(start, notes);
    }

    static method SettleOne(e: Entity, notes: Notes) returns (settled: Entity)
      ensures settled == SettledEntity(e, notes)
    {
      hide SettledAll, Flips;
      var facts, flips := SettleFacts(e.facts, notes);
      settled := e.(facts := facts, version := e.version + flips);
    }

    static method SettleFacts(facts: seq<Fact>, notes: Notes) returns (settled: seq<Fact>, flips: nat)
      ensures settled == SettledAll(facts, notes) && flips == Flips(facts, notes)
    {
      settled, flips := [], 0;
      for i := 0 to |facts|
        invariant settled == SettledAll(facts[..i], notes) && flips == Flips(facts[..i], notes)
      {
        var fact := facts[i];
        assert facts[..i + 1][..i] == facts[..i];
        if fact.evidence.note.Some? {
          if fact.evidence.note.value !in notes || notes[fact.evidence.note.value].hash != fact.evidence.noteHash {
            if fact.state == Confirmed {
              fact := fact.(state := Withdrawn, forEvidence := true);
              flips := flips + 1;
            }
          } else {
            if fact.state == Withdrawn && fact.forEvidence {
              fact := fact.(state := Confirmed, forEvidence := false);
              flips := flips + 1;
            }
            if fact.state == Confirmed {
              fact := fact.(evidence := fact.evidence.(path := notes[fact.evidence.note.value].path));
            }
          }
        }
        settled := settled + [fact];
      }
      assert facts[..|facts|] == facts;
    }

    /** One contribution pass over the reviewed notes. */
    method Contribute(notes: Notes, fields: set<string>, suppressed: set<string>)
      returns (ghost b: Basis, ghost index: map<string, string>)
      requires Inv(entities) && forall x | x in notes :: notes[x].id == x
      requires forall a, c | a in entities && c in entities && a != c ::
        NoteLinks.WithoutMd(entities[a].path) != NoteLinks.WithoutMd(entities[c].path)
      modifies this
      ensures Inv(entities)
      ensures b.start == old(entities) && b.notes == notes && b.fields == fields && b.suppressed == suppressed
      ensures ValidBasis(b) && Contributes(b, entities, index)
    {
      hide Gathering, Mentions, Resolved, MentionOf, Aimed, Included, Grown, Passed, OwnsAlone, KindsAgree,
        AllWellFormed, AllSound, SettledLedger, Later;
      var byPath := PathIndex(entities);
      var byEmail := EmailIndex(entities);
      ghost var rank: map<string, nat> :| Ranked(entities, rank);
      b := Basis(entities, byPath, rank, notes, fields, suppressed);
      PassBegins(b, byEmail);
      var left := notes.Keys;
      while left != {}
        invariant left <= notes.Keys
        invariant Ongoing(b, entities, byEmail)
        invariant forall x | x in notes.Keys - left :: Dealt(b, entities, byEmail, notes[x])
        decreases left
      {
        var x :| x in left;
        ghost var before, known := entities, byEmail;
        var mentions;
        mentions, byEmail := MentionedBy(b, x, notes[x], fields, suppressed, byPath, byEmail);
        ghost var middle := entities;
        AddFacts(b, notes[x], mentions, byEmail);
        LaterTransitive(b, before, known, middle, byEmail, entities, byEmail);
        forall y | y in notes.Keys - left ensures Dealt(b, entities, byEmail, notes[y]) {
          DealtStays(b, before, known, entities, byEmail, notes[y]);
        }
        left := left - {x};
      }
      SettlingCompletes(b, entities, byEmail);
      Settle(notes);
      index := byEmail;
    }

    static lemma PassBegins(b: Basis, byEmail: map<string, string>)
      requires ValidBasis(b) && Inv(b.start) && IsIndex(b.start, byEmail)
      ensures Ongoing(b, b.start, byEmail)
    {
      forall id | id in b.start ensures Gathering(b, byEmail, b.start[id], id) {
        assert SoundFacts(b.start[id].facts, b.start);
      }
    }
  }
}
