/**
 A split, the contribution pass every later change begins with, and the merge that takes the split
 back: what returns to its place, what is new, and exactly when all is as it was.
 */
module DossierUndo {
  import opened Results
  import opened DossierLedger
  import opened DossierContribution
  import opened DossierService
  import NoteLinks
  import Seqs

  /** The id of the new dossier is in no fact's id, and notes are kept under their own ids. */
  ghost predicate FreshFor(facts: seq<Fact>, newId: string) {
    forall f | f in facts :: f.id.Metadata? ==> f.id.subject != newId
  }

  /** `mid` is what a pass leaves of the ledger after the split. */
  ghost predicate SplitThenPass(l: Ledger, id: string, r: SplitRequest, newId: string, path: string,
                                b: Basis, mid: Ledger, byEmail: map<string, string>) {
    && Inv(l) && Splittable(l, id, r) && newId !in l && FreshFor(l[id].facts, newId)
    && Keyed(b.notes) && b.start == Split(l, id, r, newId, path)
    && ValidBasis(b) && Contributes(b, mid, byEmail)
  }

  // ----- What a pass adds to one dossier -----

  /** A metadata fact of a note that mentions the dossier, if the list did not have it. */
  ghost predicate Added(b: Basis, byEmail: map<string, string>, id: string, facts: seq<Fact>, f: Fact)
    requires ValidBasis(b)
  {
    exists x | x in b.notes :: Mentions(b, byEmail, b.notes[x], id) && f == MetaFact(b.notes[x], id)
      && !Has(facts, f.id)
  }

  lemma SettledConcat(a: seq<Fact>, c: seq<Fact>, notes: Notes)
    ensures SettledAll(a + c, notes) == SettledAll(a, notes) + SettledAll(c, notes)
  {
  }

  lemma MetaSettled(notes: Notes, x: string, id: string)
    requires Keyed(notes) && x in notes
    ensures Settled(MetaFact(notes[x], id), notes) == MetaFact(notes[x], id)
  {
  }

  lemma NewStaySettled(b: Basis, byEmail: map<string, string>, more: seq<Fact>, id: string)
    requires ValidBasis(b) && Keyed(b.notes) && forall f | f in more :: Mentioned(b, byEmail, f, id)
    ensures SettledAll(more, b.notes) == more
  {
    forall k | 0 <= k < |more| ensures Settled(more[k], b.notes) == more[k] {
      assert Mentioned(b, byEmail, more[k], id);
      var x :| x in b.notes && Mentions(b, byEmail, b.notes[x], id) && more[k] == MetaFact(b.notes[x], id);
      MetaSettled(b.notes, x, id);
    }
  }

  /** What a pass gathered: the facts of the start, and behind them one for each further mention. */
  ghost predicate Gathers(b: Basis, byEmail: map<string, string>, gathered: seq<Fact>, id: string, held: seq<Fact>,
                          more: seq<Fact>)
    requires ValidBasis(b)
  {
    && gathered == held + more && DistinctFacts(gathered)
    && (forall x | x in b.notes :: Complete(b, byEmail, x, id, gathered))
    && forall g | g in more :: Mentioned(b, byEmail, g, id)
  }

  lemma PassGathers(b: Basis, byEmail: map<string, string>, gathered: seq<Fact>, id: string) returns (more: seq<Fact>)
    requires ValidBasis(b) && Appended(b, byEmail, gathered, id)
    requires forall x | x in b.notes :: Complete(b, byEmail, x, id, gathered)
    ensures Gathers(b, byEmail, gathered, id, FactsOf(b.start, id), more)
  {
    hide Mentioned, Complete, DistinctFacts;
    var held := FactsOf(b.start, id);
    more := gathered[|held|..];
    assert gathered == held + more;
    forall f | f in more ensures Mentioned(b, byEmail, f, id) {
      var k :| 0 <= k < |more| && more[k] == f;
      assert gathered[|held| + k] == f;
    }
  }

  lemma GatheredIsAdded(b: Basis, byEmail: map<string, string>, gathered: seq<Fact>, id: string, held: seq<Fact>,
                        more: seq<Fact>, f: Fact)
    requires ValidBasis(b) && Gathers(b, byEmail, gathered, id, held, more) && f in more
    ensures Added(b, byEmail, id, held, f)
  {
    hide Mentions, Complete, ValidBasis;
    var k :| 0 <= k < |more| && more[k] == f;
    NotBefore(held, more, k);
    assert Mentioned(b, byEmail, f, id);
  }

  lemma NotBefore(held: seq<Fact>, more: seq<Fact>, k: nat)
    requires DistinctFacts(held + more) && k < |more|
    ensures !Has(held, more[k].id)
  {
    forall g | g in held ensures g.id != more[k].id {
      var i :| 0 <= i < |held| && held[i] == g;
      assert (held + more)[i] == g && (held + more)[|held| + k] == more[k];
    }
  }

  lemma AddedIsGathered(b: Basis, byEmail: map<string, string>, gathered: seq<Fact>, id: string, held: seq<Fact>,
                        more: seq<Fact>, f: Fact)
    requires ValidBasis(b) && Keyed(b.notes) && Gathers(b, byEmail, gathered, id, held, more)
      && Added(b, byEmail, id, held, f)
    ensures f in more
  {
    hide Mentions, ValidBasis, DistinctFacts;
    var x :| x in b.notes && Mentions(b, byEmail, b.notes[x], id) && f == MetaFact(b.notes[x], id) && !Has(held, f.id);
    assert Complete(b, byEmail, x, id, gathered);
    var g :| g in gathered && g.id == f.id;
    assert g in more;
    var y :| y in b.notes && Mentions(b, byEmail, b.notes[y], id) && g == MetaFact(b.notes[y], id);
    assert x == b.notes[x].id == b.notes[y].id == y;
  }

  /** After a pass a dossier has its old facts, settled, and behind them one for each further mention. */
  lemma PassedParts(b: Basis, byEmail: map<string, string>, e: Entity, id: string) returns (more: seq<Fact>)
    requires ValidBasis(b) && Keyed(b.notes) && Passed(b, byEmail, e, id)
    ensures e.facts == SettledAll(FactsOf(b.start, id), b.notes) + more && DistinctFacts(e.facts)
    ensures forall f :: f in more <==> Added(b, byEmail, id, FactsOf(b.start, id), f)
  {
    hide Mentions, ValidBasis, Flips, Gathers, Added, Appended, Complete, DistinctFacts, Mentioned, SettledAll;
    var held := FactsOf(b.start, id);
    var gathered: seq<Fact> :| Pass(b, byEmail, e, id, gathered);
    more := PassGathers(b, byEmail, gathered, id);
    SplitUp(b, byEmail, gathered, id, held, more);
    forall f ensures f in more <==> Added(b, byEmail, id, held, f) {
      if f in more {
        GatheredIsAdded(b, byEmail, gathered, id, held, more, f);
      }
      if Added(b, byEmail, id, held, f) {
        AddedIsGathered(b, byEmail, gathered, id, held, more, f);
      }
    }
  }

  lemma SplitUp(b: Basis, byEmail: map<string, string>, gathered: seq<Fact>, id: string, held: seq<Fact>,
                more: seq<Fact>)
    requires ValidBasis(b) && Keyed(b.notes) && Gathers(b, byEmail, gathered, id, held, more)
    ensures SettledAll(gathered, b.notes) == SettledAll(held, b.notes) + more
    ensures DistinctFacts(SettledAll(gathered, b.notes))
  {
    hide ValidBasis, Complete, Mentioned;
    NewStaySettled(b, byEmail, more, id);
    SettledConcat(held, more, b.notes);
    forall k | 0 <= k < |gathered| ensures SettledAll(gathered, b.notes)[k].id == gathered[k].id {
    }
  }

  // ----- The facts after the merge back -----

  /**
   What becomes of one fact: a chosen one is confirmed again exactly if its settled copy is, and
   withdrawn for good if not.
   */
  function BackFact(f: Fact, ids: seq<FactId>, notes: Notes): Fact {
    if f.id in ids && Settled(f, notes).state != Confirmed then TakenBack(f) else Settled(f, notes)
  }

  function BackAll(facts: seq<Fact>, ids: seq<FactId>, notes: Notes): (r: seq<Fact>)
    ensures |r| == |facts| && forall k | 0 <= k < |facts| :: r[k] == BackFact(facts[k], ids, notes)
  {
    if facts == [] then [] else [BackFact(facts[0], ids, notes)] + BackAll(facts[1..], ids, notes)
  }

  lemma {:induction false} IndexBehind(done: seq<Fact>, rest: seq<Fact>)
    requires rest != [] && forall f | f in done :: f.id != rest[0].id
    ensures IndexOf(done + rest, rest[0].id) == Some(|done|)
  {
    if done != [] {
      assert (done + rest)[1..] == done[1..] + rest;
      IndexBehind(done[1..], rest);
    } else {
      assert done + rest == rest;
    }
  }

  lemma SettledKeepsTakenBack(f: Fact, notes: Notes)
    ensures Settled(TakenBack(f), notes) == TakenBack(f) && TakenBack(f).state == Withdrawn && TakenBack(f).id == f.id
    ensures Settled(f, notes).id == f.id
  {
  }

  lemma Replaced(done: seq<Fact>, x: Fact, tail: seq<Fact>, y: Fact)
    ensures |done + [x] + tail| > |done| && (done + [x] + tail)[|done|] == x
    ensures (done + [x] + tail)[|done| := y] == done + [y] + tail
  {
  }

  lemma FoundAt(done: seq<Fact>, x: Fact, tail: seq<Fact>)
    requires forall g | g in done :: g.id != x.id
    ensures IndexOf(done + [x] + tail, x.id) == Some(|done|)
  {
    hide IndexOf;
    Seqs.Assoc(done, [x], tail);
    IndexBehind(done, [x] + tail);
  }

  /** The settled copy of a chosen fact meets the one left behind, which settling does not touch. */
  lemma MergeBackOne(done: seq<Fact>, f: Fact, tail: seq<Fact>, ids: seq<FactId>, notes: Notes)
    requires f.id in ids && forall g | g in done :: g.id != f.id
    ensures MergeFact(done + [Settled(TakenBack(f), notes)] + tail, Settled(f, notes)) ==
      done + [BackFact(f, ids, notes)] + tail
  {
    hide IndexOf, Settled, TakenBack;
    SettledKeepsTakenBack(f, notes);
    FoundAt(done, TakenBack(f), tail);
    Replaced(done, TakenBack(f), tail, Settled(f, notes));
  }

  lemma SettledHead(f: Fact, facts: seq<Fact>, notes: Notes)
    ensures SettledAll([f] + facts, notes) == [Settled(f, notes)] + SettledAll(facts, notes)
  {
  }

  lemma MergeBackStep(done: seq<Fact>, rest: seq<Fact>, tail: seq<Fact>, ids: seq<FactId>, notes: Notes)
    requires rest != [] && forall f | f in done :: f.id != rest[0].id
    ensures MergeFacts(done + SettledAll(LeftBehind(rest, ids), notes) + tail, SettledAll(Chosen(rest, ids), notes)) ==
            MergeFacts(done + [BackFact(rest[0], ids, notes)] + SettledAll(LeftBehind(rest[1..], ids), notes) + tail,
                       SettledAll(Chosen(rest[1..], ids), notes))
  {
    hide SettledAll, BackFact, Settled, MergeFact;
    var f, left, more := rest[0], SettledAll(LeftBehind(rest[1..], ids), notes), Chosen(rest[1..], ids);
    if f.id in ids {
      SettledHead(TakenBack(f), LeftBehind(rest[1..], ids), notes);
      SettledHead(f, more, notes);
      Regrouped(done, Settled(TakenBack(f), notes), left, tail);
      Regrouped(done, BackFact(f, ids, notes), left, tail);
      MergeBackOne(done, f, left + tail, ids, notes);
      FoldsOne(done + [Settled(TakenBack(f), notes)] + (left + tail), Settled(f, notes), SettledAll(more, notes));
    } else {
      SettledHead(f, LeftBehind(rest[1..], ids), notes);
      NotChosen(f, ids, notes);
      Regrouped(done, Settled(f, notes), left, tail);
      assert [] + more == more;
    }
  }

  lemma NotChosen(f: Fact, ids: seq<FactId>, notes: Notes)
    requires f.id !in ids
    ensures BackFact(f, ids, notes) == Settled(f, notes)
  {
  }

  lemma FoldsOne(facts: seq<Fact>, f: Fact, more: seq<Fact>)
    ensures MergeFacts(facts, [f] + more) == MergeFacts(MergeFact(facts, f), more)
  {
    assert ([f] + more)[1..] == more;
  }

  lemma Regrouped(done: seq<Fact>, f: Fact, left: seq<Fact>, tail: seq<Fact>)
    ensures done + ([f] + left) + tail == done + [f] + (left + tail) == done + [f] + left + tail
  {
  }

  lemma {:induction false} MergeBack(done: seq<Fact>, rest: seq<Fact>, tail: seq<Fact>, ids: seq<FactId>, notes: Notes)
    requires DistinctFacts(rest)
    requires forall i, j | 0 <= i < |done| && 0 <= j < |rest| :: done[i].id != rest[j].id
    ensures MergeFacts(done + SettledAll(LeftBehind(rest, ids), notes) + tail, SettledAll(Chosen(rest, ids), notes)) ==
            done + BackAll(rest, ids, notes) + tail
    decreases rest
  {
    hide MergeFact, Settled, BackFact;
    if rest == [] {
      assert SettledAll(LeftBehind(rest, ids), notes) == [] && SettledAll(Chosen(rest, ids), notes) == [];
    } else {
      var one, back := [BackFact(rest[0], ids, notes)], BackAll(rest[1..], ids, notes);
      MergeBackStep(done, rest, tail, ids, notes);
      KeepsId(rest[0], ids, notes);
      MergeBack(done + one, rest[1..], tail, ids, notes);
      Seqs.Assoc(done, one, back);
    }
  }

  lemma KeepsId(f: Fact, ids: seq<FactId>, notes: Notes)
    ensures BackFact(f, ids, notes).id == f.id && BackFact(f, ids, notes).target == f.target
  {
  }

  lemma {:induction false} MergeFactsConcat(facts: seq<Fact>, a: seq<Fact>, c: seq<Fact>)
    ensures MergeFacts(facts, a + c) == MergeFacts(MergeFacts(facts, a), c)
    decreases a
  {
    hide MergeFact;
    if a == [] {
      assert a + c == c;
    } else {
      assert (a + c)[1..] == a[1..] + c && (a + c)[0] == a[0];
      MergeFactsConcat(MergeFact(facts, a[0]), a[1..], c);
    }
  }

  /** Facts whose ids are all new go behind. */
  lemma {:induction false} NewGoBehind(facts: seq<Fact>, more: seq<Fact>)
    requires DistinctFacts(facts + more)
    ensures MergeFacts(facts, more) == facts + more
    decreases more
  {
    if more == [] {
      assert facts + more == facts;
    } else {
      forall f | f in facts ensures f.id != more[0].id {
        var i :| 0 <= i < |facts| && facts[i] == f;
        assert (facts + more)[i] == f && (facts + more)[|facts|] == more[0];
      }
      assert MergeFact(facts, more[0]) == facts + [more[0]];
      assert facts + [more[0]] + more[1..] == facts + more;
      NewGoBehind(facts + [more[0]], more[1..]);
    }
  }

  // ----- The whole undoing -----

  /** What the merge back brings in besides: a fact for every note that mentions either dossier and had none. */
  ghost predicate Extra(b: Basis, byEmail: map<string, string>, facts: seq<Fact>, id: string, newId: string, f: Fact)
    requires ValidBasis(b)
  {
    || Added(b, byEmail, id, facts, f)
    || exists x | x in b.notes :: Mentions(b, byEmail, b.notes[x], newId) && f == MetaFact(b.notes[x], newId)
  }

  lemma SameIds(a: seq<Fact>, c: seq<Fact>, id: FactId)
    requires |a| == |c| && forall k | 0 <= k < |a| :: a[k].id == c[k].id
    ensures Has(a, id) <==> Has(c, id)
    ensures DistinctFacts(a) <==> DistinctFacts(c)
  {
    if f :| f in a && f.id == id {
      var k :| 0 <= k < |a| && a[k] == f;
      assert c[k] in c;
    }
    if f :| f in c && f.id == id {
      var k :| 0 <= k < |c| && c[k] == f;
      assert a[k] in a;
    }
  }

  lemma LeftIds(facts: seq<Fact>, ids: seq<FactId>, notes: Notes)
    ensures |SettledAll(LeftBehind(facts, ids), notes)| == |facts|
    ensures forall k | 0 <= k < |facts| ::
      SettledAll(LeftBehind(facts, ids), notes)[k].id == facts[k].id == LeftBehind(facts, ids)[k].id ==
        BackAll(facts, ids, notes)[k].id
  {
    forall k | 0 <= k < |facts|
      ensures SettledAll(LeftBehind(facts, ids), notes)[k].id == facts[k].id == LeftBehind(facts, ids)[k].id ==
        BackAll(facts, ids, notes)[k].id
    {
      LeftBehindAt(facts, ids, k);
      KeepsId(facts[k], ids, notes);
    }
  }

  /** Old facts, facts about the old dossier, facts about the new one: no id twice. */
  lemma AllDistinct(b: Basis, byEmail: map<string, string>, facts: seq<Fact>, ids: seq<FactId>, id: string,
                    newId: string, ofOld: seq<Fact>, ofNew: seq<Fact>)
    requires ValidBasis(b) && FreshFor(facts, newId) && id != newId
    requires DistinctFacts(SettledAll(LeftBehind(facts, ids), b.notes) + ofOld) && DistinctFacts(ofNew)
    requires forall f | f in ofOld :: exists x | x in b.notes :: f == MetaFact(b.notes[x], id)
    requires forall f | f in ofNew :: exists x | x in b.notes :: f == MetaFact(b.notes[x], newId)
    ensures DistinctFacts(BackAll(facts, ids, b.notes) + ofOld + ofNew)
  {
    hide SettledAll, ValidBasis, FreshFor, BackAll, DistinctFacts, LeftBehind;
    var old_ := BackAll(facts, ids, b.notes) + ofOld;
    LeftIds(facts, ids, b.notes);
    SameIdsWith(BackAll(facts, ids, b.notes), SettledAll(LeftBehind(facts, ids), b.notes), ofOld);
    forall i, j | 0 <= i < |old_| && 0 <= j < |ofNew| ensures old_[i].id != ofNew[j].id {
      assert ofNew[j] in ofNew;
      if i < |facts| {
        assert old_[i].id == facts[i].id;
        NotFresh(facts, i, newId);
      } else {
        assert old_[i] == ofOld[i - |facts|] && old_[i] in ofOld;
      }
    }
    ApartDistinct(old_, ofNew);
  }

  lemma SameIdsWith(a: seq<Fact>, c: seq<Fact>, tail: seq<Fact>)
    requires |a| == |c| && DistinctFacts(c + tail) && forall k | 0 <= k < |a| :: a[k].id == c[k].id
    ensures DistinctFacts(a + tail)
  {
    forall i, j | 0 <= i < j < |a + tail| ensures (a + tail)[i].id != (a + tail)[j].id {
      assert (a + tail)[i].id == (c + tail)[i].id && (a + tail)[j].id == (c + tail)[j].id;
    }
  }

  lemma ApartDistinct(a: seq<Fact>, c: seq<Fact>)
    requires DistinctFacts(a) && DistinctFacts(c)
    requires forall i, j | 0 <= i < |a| && 0 <= j < |c| :: a[i].id != c[j].id
    ensures DistinctFacts(a + c)
  {
  }

  lemma NotFresh(facts: seq<Fact>, i: nat, newId: string)
    requires FreshFor(facts, newId) && i < |facts|
    ensures facts[i].id.Metadata? ==> facts[i].id.subject != newId
  {
    assert facts[i] in facts;
  }

  lemma UndoneFacts(l: Ledger, id: string, r: SplitRequest, newId: string, path: string,
                    b: Basis, mid: Ledger, byEmail: map<string, string>) returns (more: seq<Fact>)
    requires SplitThenPass(l, id, r, newId, path, b, mid, byEmail)
    ensures id in mid && newId in mid
    ensures var facts := MergeFacts(mid[id].facts, mid[newId].facts);
      && facts == BackAll(l[id].facts, r.facts, b.notes) + more && DistinctFacts(facts)
      && forall f :: f in more <==> Extra(b, byEmail, l[id].facts, id, newId, f)
  {
    hide Mentions, ValidBasis, Passed, SettledAll, Settled, BackAll, Inv, DistinctFacts, IsIndex, Resolved;
    var facts, ids, notes := l[id].facts, r.facts, b.notes;
    assert id in b.start && newId in b.start && id in mid && newId in mid;
    assert FactsOf(b.start, id) == LeftBehind(facts, ids) && FactsOf(b.start, newId) == Chosen(facts, ids);
    var ofOld := PassedParts(b, byEmail, mid[id], id);
    var ofNew := PassedParts(b, byEmail, mid[newId], newId);
    more := ofOld + ofNew;
    SoundAt(l, id);
    AllOfThem(l, id, r, newId, path, b, byEmail, ofOld, ofNew);
    MergeFactsConcat(mid[id].facts, SettledAll(Chosen(facts, ids), notes), ofNew);
    MergedOldFirst(l, id, ids, notes, ofOld);
    TailDistinct(SettledAll(Chosen(facts, ids), notes), ofNew);
    AllDistinct(b, byEmail, facts, ids, id, newId, ofOld, ofNew);
    NewGoBehind(BackAll(facts, ids, notes) + ofOld, ofNew);
    Seqs.Assoc(BackAll(facts, ids, notes), ofOld, ofNew);
  }

  lemma SoundAt(l: Ledger, id: string)
    requires Inv(l) && id in l
    ensures SoundFacts(l[id].facts, l)
  {
  }

  lemma TailDistinct(a: seq<Fact>, c: seq<Fact>)
    requires DistinctFacts(a + c)
    ensures DistinctFacts(c)
  {
    forall i, j | 0 <= i < j < |c| ensures c[i].id != c[j].id {
      assert (a + c)[|a| + i] == c[i] && (a + c)[|a| + j] == c[j];
    }
  }

  lemma MergedOldFirst(l: Ledger, id: string, ids: seq<FactId>, notes: Notes, ofOld: seq<Fact>)
    requires Inv(l) && id in l
    ensures MergeFacts(SettledAll(LeftBehind(l[id].facts, ids), notes) + ofOld,
      SettledAll(Chosen(l[id].facts, ids), notes)) ==
            BackAll(l[id].facts, ids, notes) + ofOld
  {
    hide SettledAll, BackAll, MergeFacts;
    var facts := l[id].facts;
    assert SoundFacts(facts, l);
    MergeBack([], facts, ofOld, ids, notes);
    assert [] + SettledAll(LeftBehind(facts, ids), notes) == SettledAll(LeftBehind(facts, ids), notes);
    assert [] + BackAll(facts, ids, notes) == BackAll(facts, ids, notes);
  }

  /** The facts a pass adds to the two dossiers are the extra ones. */
  lemma AllOfThem(l: Ledger, id: string, r: SplitRequest, newId: string, path: string, b: Basis,
                  byEmail: map<string, string>, ofOld: seq<Fact>, ofNew: seq<Fact>)
    requires ValidBasis(b) && id in l && SoundFacts(l[id].facts, l) && FreshFor(l[id].facts, newId)
    requires forall f :: f in ofOld <==> Added(b, byEmail, id, LeftBehind(l[id].facts, r.facts), f)
    requires forall f :: f in ofNew <==> Added(b, byEmail, newId, Chosen(l[id].facts, r.facts), f)
    ensures forall f :: f in ofOld + ofNew <==> Extra(b, byEmail, l[id].facts, id, newId, f)
    ensures forall f | f in ofOld :: exists x | x in b.notes :: f == MetaFact(b.notes[x], id)
    ensures forall f | f in ofNew :: exists x | x in b.notes :: f == MetaFact(b.notes[x], newId)
  {
    hide Mentions, ValidBasis, Added, SoundFacts, FreshFor;
    var facts := l[id].facts;
    forall f ensures Added(b, byEmail, id, LeftBehind(facts, r.facts), f) <==> Added(b, byEmail, id, facts, f) {
      AddedToLeft(b, byEmail, id, facts, r.facts, f);
    }
    forall f ensures Added(b, byEmail, newId, Chosen(facts, r.facts), f) <==>
      exists x | x in b.notes :: Mentions(b, byEmail, b.notes[x], newId) && f == MetaFact(b.notes[x], newId)
    {
      AddedToNew(b, byEmail, newId, facts, r.facts, l, f);
    }
    forall f ensures f in ofOld ==> exists x | x in b.notes :: f == MetaFact(b.notes[x], id) {
      AddedIsMeta(b, byEmail, id, facts, f);
    }
  }

  lemma AddedIsMeta(b: Basis, byEmail: map<string, string>, id: string, facts: seq<Fact>, f: Fact)
    requires ValidBasis(b)
    ensures Added(b, byEmail, id, facts, f) ==> exists x | x in b.notes :: f == MetaFact(b.notes[x], id)
  {
    hide Mentions, ValidBasis;
  }

  lemma AddedToLeft(b: Basis, byEmail: map<string, string>, id: string, facts: seq<Fact>, ids: seq<FactId>, f: Fact)
    requires ValidBasis(b)
    ensures Added(b, byEmail, id, LeftBehind(facts, ids), f) <==> Added(b, byEmail, id, facts, f)
  {
    hide Mentions, ValidBasis, Has;
    LeftIds(facts, ids, b.notes);
    SameIds(LeftBehind(facts, ids), facts, f.id);
  }

  lemma AddedToNew(b: Basis, byEmail: map<string, string>, newId: string, facts: seq<Fact>, ids: seq<FactId>,
                   l: Ledger, f: Fact)
    requires ValidBasis(b) && FreshFor(facts, newId) && SoundFacts(facts, l)
    ensures Added(b, byEmail, newId, Chosen(facts, ids), f) <==>
      exists x | x in b.notes :: Mentions(b, byEmail, b.notes[x], newId) && f == MetaFact(b.notes[x], newId)
  {
    hide Mentions, ValidBasis;
    ChosenSound(facts, ids, l);
    if x :| x in b.notes && Mentions(b, byEmail, b.notes[x], newId) && f == MetaFact(b.notes[x], newId) {
      forall g | g in Chosen(facts, ids) ensures g.id != f.id {
        assert g in facts;
      }
      assert Added(b, byEmail, newId, Chosen(facts, ids), f);
    }
  }

  lemma SettledAims(facts: seq<Fact>, notes: Notes, f: Fact)
    requires f in SettledAll(facts, notes)
    ensures exists g | g in facts :: g.target == f.target
  {
    var k :| 0 <= k < |facts| && SettledAll(facts, notes)[k] == f;
    assert facts[k] in facts;
  }

  /** A pass aims no fact at a dossier that nothing was aimed at. */
  lemma PassedAims(b: Basis, byEmail: map<string, string>, e: Entity, id: string, newId: string)
    requires ValidBasis(b) && Keyed(b.notes) && Passed(b, byEmail, e, id)
    requires forall f | f in FactsOf(b.start, id) :: f.target != Some(newId)
    ensures forall f | f in e.facts :: f.target != Some(newId)
  {
    hide Mentions, ValidBasis, Passed, SettledAll;
    var more := PassedParts(b, byEmail, e, id);
    forall f | f in e.facts ensures f.target != Some(newId) {
      if f in SettledAll(FactsOf(b.start, id), b.notes) {
        SettledAims(FactsOf(b.start, id), b.notes, f);
      } else {
        AddedIsMeta(b, byEmail, id, FactsOf(b.start, id), f);
      }
    }
  }

  lemma BackAims(facts: seq<Fact>, ids: seq<FactId>, notes: Notes, newId: string, f: Fact)
    requires f in BackAll(facts, ids, notes) && forall g | g in facts :: g.target != Some(newId)
    ensures f.target != Some(newId)
  {
    var k :| 0 <= k < |facts| && BackAll(facts, ids, notes)[k] == f;
    KeepsId(facts[k], ids, notes);
    assert facts[k] in facts;
  }

  lemma NotAimedAt(l: Ledger, id: string, newId: string)
    requires Inv(l) && id in l && newId !in l
    ensures forall f | f in l[id].facts :: f.target != Some(newId)
  {
    assert SoundFacts(l[id].facts, l);
    forall f | f in l[id].facts ensures f.target != Some(newId) {
      assert Aimed(f, l);
    }
  }

  lemma SplitPlaces(l: Ledger, id: string, r: SplitRequest, newId: string, path: string)
    requires Splittable(l, id, r) && newId !in l
    ensures var apart := Split(l, id, r, newId, path);
      && apart.Keys == l.Keys + {newId} && Active(apart, id) && Active(apart, newId)
        && apart[newId].kind == apart[id].kind
      && Elements(apart[id].emails) == Elements(l[id].emails) - Elements(r.emails)
      && Elements(apart[newId].emails) == Elements(r.emails) <= Elements(l[id].emails)
      && apart[newId].facts == Chosen(l[id].facts, r.facts) && apart[id].facts == LeftBehind(l[id].facts, r.facts)
      && (forall other | other in l && other != id :: apart[other] == l[other])
      && forall other | other in l ::
        apart[other].redirect == l[other].redirect
        && apart[other].retired == l[other].retired && apart[other].path == l[other].path
  {
    MinusElements(l[id].emails, r.emails);
  }

  /**
   Split, pass, merge back. Every old fact is in its old place: a chosen one confirmed again exactly
   if its settled copy is, and withdrawn for good otherwise. Behind them stands one new fact for
   each note that mentions either dossier and had none. The addresses are back, and no other dossier
   is touched by the merge.
   */
  lemma SplitPassMergeBack(l: Ledger, id: string, r: SplitRequest, newId: string, path: string,
                           b: Basis, mid: Ledger, byEmail: map<string, string>) returns (more: seq<Fact>)
    requires SplitThenPass(l, id, r, newId, path, b, mid, byEmail)
    ensures Mergeable(mid, newId, id)
    ensures var back := Merged(mid, newId, id);
      && back[id].facts == BackAll(l[id].facts, r.facts, b.notes) + more && DistinctFacts(back[id].facts)
      && (forall f :: f in more <==> Extra(b, byEmail, l[id].facts, id, newId, f))
      && Elements(back[id].emails) == Elements(l[id].emails)
      && back[newId].redirect == Some(id)
      && forall other | other in mid && other != id && other != newId :: back[other] == mid[other]
  {
    hide Inv, Passed, Extra, BackAll, Mentions, ValidBasis, Resolved, IsIndex, FreshFor, Merged, Retargeted,
      DistinctFacts, Split, Splittable;
    more := UndoneFacts(l, id, r, newId, path, b, mid, byEmail);
    MidMergeable(l, id, r, newId, path, b, mid);
    EmailsBack(l, id, r, newId, path, b, mid);
    MergedFactsBack(l, id, newId, mid, BackAll(l[id].facts, r.facts, b.notes), more, b, byEmail, r.facts);
    forall other | other in mid && other != id && other != newId ensures Merged(mid, newId, id)[other] == mid[other] {
      OtherAims(l, id, r, newId, path, b, mid, byEmail, other);
      MergedElsewhere(mid, newId, id, other);
    }
  }

  lemma EmailsBack(l: Ledger, id: string, r: SplitRequest, newId: string, path: string, b: Basis, mid: Ledger)
    requires Splittable(l, id, r) && newId !in l && b.start == Split(l, id, r, newId, path) && Grown(b, mid)
    requires id in mid && newId in mid && Mergeable(mid, newId, id)
    ensures Elements(Merged(mid, newId, id)[id].emails) == Elements(l[id].emails)
      && Merged(mid, newId, id)[newId].redirect == Some(id)
  {
    hide Split, Merged;
    SplitPlaces(l, id, r, newId, path);
    MergedRedirects(mid, newId, id);
    assert SameIdentity(b.start[id], mid[id]) && SameIdentity(b.start[newId], mid[newId]);
  }

  lemma MidMergeable(l: Ledger, id: string, r: SplitRequest, newId: string, path: string, b: Basis, mid: Ledger)
    requires Splittable(l, id, r) && newId !in l && b.start == Split(l, id, r, newId, path) && Grown(b, mid)
    ensures id in l && id in mid && newId in mid && id in b.start && newId in b.start && Mergeable(mid, newId, id)
  {
    SplitPlaces(l, id, r, newId, path);
    assert SameIdentity(b.start[id], mid[id]) && SameIdentity(b.start[newId], mid[newId]);
  }

  lemma MergedFactsBack(l: Ledger, id: string, newId: string, mid: Ledger, old_: seq<Fact>, more: seq<Fact>,
                        b: Basis, byEmail: map<string, string>, ids: seq<FactId>)
    requires Inv(l) && id in l && newId !in l && Mergeable(mid, newId, id) && ValidBasis(b)
    requires old_ == BackAll(l[id].facts, ids, b.notes) && MergeFacts(mid[id].facts, mid[newId].facts) == old_ + more
    requires forall f :: f in more <==> Extra(b, byEmail, l[id].facts, id, newId, f)
    ensures Merged(mid, newId, id)[id].facts == old_ + more
  {
    hide Inv, ValidBasis, BackAll, Extra;
    NotAimedAt(l, id, newId);
    forall f | f in old_ + more ensures f.target != Some(newId) {
      if f in old_ {
        BackAims(l[id].facts, ids, b.notes, newId, f);
      } else {
        ExtraIsMeta(b, byEmail, l[id].facts, id, newId, f);
      }
    }
    Untargeted(old_ + more, newId, id);
  }

  lemma ExtraIsMeta(b: Basis, byEmail: map<string, string>, facts: seq<Fact>, id: string, newId: string, f: Fact)
    requires ValidBasis(b) && Extra(b, byEmail, facts, id, newId, f)
    ensures f.target == None
  {
    hide ValidBasis, Mentions;
  }

  lemma OtherAims(l: Ledger, id: string, r: SplitRequest, newId: string, path: string,
                  b: Basis, mid: Ledger, byEmail: map<string, string>, other: string)
    requires SplitThenPass(l, id, r, newId, path, b, mid, byEmail) && other in mid && other != id && other != newId
    ensures forall f | f in mid[other].facts :: f.target != Some(newId)
  {
    hide Inv, ValidBasis, Passed, Mentions, Resolved, IsIndex, FreshFor, Split, Splittable;
    SplitPlaces(l, id, r, newId, path);
    if other in l {
      NotAimedAt(l, other, newId);
      assert b.start[other] == l[other];
    }
    PassedAims(b, byEmail, mid[other], other, newId);
  }

  // ----- Exactly when all is as it was -----

  lemma BackAllKeepsExactly(facts: seq<Fact>, ids: seq<FactId>, notes: Notes)
    requires forall f | f in facts :: f.forEvidence ==> f.state == Withdrawn
    ensures BackAll(facts, ids, notes) == facts <==>
      forall f | f in facts :: Settled(f, notes) == f && !(f.id in ids && f.forEvidence)
  {
    hide Settled, BackAll;
    var back := BackAll(facts, ids, notes);
    if back == facts {
      forall f | f in facts ensures Settled(f, notes) == f && !(f.id in ids && f.forEvidence) {
        var k :| 0 <= k < |facts| && facts[k] == f;
        assert back[k] == BackFact(f, ids, notes);
        BackFactKeepsExactly(f, ids, notes);
      }
    } else if forall f | f in facts :: Settled(f, notes) == f && !(f.id in ids && f.forEvidence) {
      forall k | 0 <= k < |facts| ensures back[k] == facts[k] {
        assert facts[k] in facts;
        BackFactKeepsExactly(facts[k], ids, notes);
      }
    }
  }

  lemma BackFactKeepsExactly(f: Fact, ids: seq<FactId>, notes: Notes)
    requires f.forEvidence ==> f.state == Withdrawn
    ensures BackFact(f, ids, notes) == f <==> Settled(f, notes) == f && !(f.id in ids && f.forEvidence)
  {
  }

  /** No note mentions the old dossier without having its fact there, and none mentions the new one. */
  ghost predicate NothingNewMentioned(b: Basis, byEmail: map<string, string>, facts: seq<Fact>, id: string,
                                      newId: string)
    requires ValidBasis(b)
  {
    && (forall x | x in b.notes && Mentions(b, byEmail, b.notes[x], id) :: Has(facts, MetaId(b.notes[x], id)))
    && forall x | x in b.notes :: !Mentions(b, byEmail, b.notes[x], newId)
  }

  lemma NothingExtraExactly(b: Basis, byEmail: map<string, string>, facts: seq<Fact>, id: string, newId: string,
                            more: seq<Fact>)
    requires ValidBasis(b) && forall f :: f in more <==> Extra(b, byEmail, facts, id, newId, f)
    ensures more == [] <==> NothingNewMentioned(b, byEmail, facts, id, newId)
  {
    hide ValidBasis, Mentions;
    if more == [] {
      forall x | x in b.notes && Mentions(b, byEmail, b.notes[x], id) ensures Has(facts, MetaId(b.notes[x], id)) {
        assert !Extra(b, byEmail, facts, id, newId, MetaFact(b.notes[x], id));
      }
      forall x | x in b.notes ensures !Mentions(b, byEmail, b.notes[x], newId) {
        assert !Extra(b, byEmail, facts, id, newId, MetaFact(b.notes[x], newId));
      }
    } else {
      assert more[0] in more;
      assert Extra(b, byEmail, facts, id, newId, more[0]);
    }
  }

  /**
   The facts are exactly what they were if and only if settling changes none of them, no chosen one
   waited for its evidence, and no note gives either dossier a further mention.
   */
  lemma RestoredExactly(l: Ledger, id: string, r: SplitRequest, newId: string, path: string,
                        b: Basis, mid: Ledger, byEmail: map<string, string>)
    requires SplitThenPass(l, id, r, newId, path, b, mid, byEmail)
    ensures Mergeable(mid, newId, id)
    ensures Merged(mid, newId, id)[id].facts == l[id].facts <==>
      && (forall f | f in l[id].facts :: Settled(f, b.notes) == f && !(f.id in r.facts && f.forEvidence))
      && NothingNewMentioned(b, byEmail, l[id].facts, id, newId)
  {
    hide Settled, Mentions, Extra, Merged, BackAll, ValidBasis, NothingNewMentioned;
    var more := SplitPassMergeBack(l, id, r, newId, path, b, mid, byEmail);
    assert SoundFacts(l[id].facts, l);
    BackAllKeepsExactly(l[id].facts, r.facts, b.notes);
    NothingExtraExactly(b, byEmail, l[id].facts, id, newId, more);
    SameLength(BackAll(l[id].facts, r.facts, b.notes), more, l[id].facts);
  }

  lemma SameLength(a: seq<Fact>, more: seq<Fact>, facts: seq<Fact>)
    requires |a| == |facts|
    ensures a + more == facts <==> a == facts && more == []
  {
    if a + more == facts {
      assert |more| == 0;
      assert a + [] == a;
    }
  }

  // ----- Who mentions the new dossier -----

  lemma {:induction false} NobodyLeadsToNew(l: Ledger, apart: Ledger, newId: string, id: string, rank: map<string, nat>)
    requires Forest(l) && id in l && newId !in l && Ranked(apart, rank) && apart.Keys == l.Keys + {newId}
    requires forall other | other in l :: apart[other].redirect == l[other].redirect
    ensures Root(apart, id, rank) != newId
    decreases if id in rank then rank[id] else 0
  {
    if apart[id].redirect.Some? {
      NobodyLeadsToNew(l, apart, newId, apart[id].redirect.value, rank);
    }
  }

  /** A value mentions the new dossier exactly if it is one of the moved addresses or a link to the new page. */
  predicate MentionsSplit(m: Mention, r: SplitRequest, path: string) {
    (m.Address? && m.address in r.emails) || m == Link(NoteLinks.WithoutMd(path))
  }

  lemma LinkToNewExactly(l: Ledger, id: string, r: SplitRequest, newId: string, path: string, b: Basis, p: string)
    requires Forest(l) && Splittable(l, id, r) && newId !in l && b.start == Split(l, id, r, newId, path)
      && ValidBasis(b)
    ensures p in b.byPath && Root(b.start, b.byPath[p], b.rank) == newId <==> p == NoteLinks.WithoutMd(path)
  {
    hide Split, NoteLinks.WithoutMd, Forest;
    SplitPlaces(l, id, r, newId, path);
    NewPage(l, id, r, newId, path);
    if p in b.byPath && b.byPath[p] != newId {
      NobodyLeadsToNew(l, b.start, newId, b.byPath[p], b.rank);
    }
  }

  lemma OwnerIsNewExactly(l: Ledger, id: string, r: SplitRequest, newId: string, path: string, b: Basis, mid: Ledger,
                          byEmail: map<string, string>, a: string)
    requires Splittable(l, id, r) && newId !in l && b.start == Split(l, id, r, newId, path) && Grown(b, mid)
      && IsIndex(mid, byEmail)
    ensures a in byEmail && byEmail[a] == newId <==> a in r.emails
  {
    hide Split, Splittable, Grown;
    NewOwns(l, id, r, newId, path, b, mid);
    assert a in r.emails <==> a in Elements(r.emails);
    assert a in mid[newId].emails <==> a in Elements(mid[newId].emails);
  }

  lemma NewOwns(l: Ledger, id: string, r: SplitRequest, newId: string, path: string, b: Basis, mid: Ledger)
    requires Splittable(l, id, r) && newId !in l && b.start == Split(l, id, r, newId, path) && Grown(b, mid)
    ensures newId in mid && mid[newId].redirect == None && Elements(mid[newId].emails) == Elements(r.emails)
  {
    hide Split, Splittable;
    SplitPlaces(l, id, r, newId, path);
    assert SameIdentity(b.start[newId], mid[newId]);
  }

  lemma ReachesNewExactly(l: Ledger, id: string, r: SplitRequest, newId: string, path: string,
                          b: Basis, mid: Ledger, byEmail: map<string, string>, m: Mention)
    requires SplitThenPass(l, id, r, newId, path, b, mid, byEmail)
    ensures Reached(b, byEmail, m) == Some(newId) <==> MentionsSplit(m, r, path)
  {
    hide Passed, Resolved, Mentions, FreshFor, KindsAgree, OwnsAlone, AllWellFormed, AllSound, Split, Splittable,
      Grown, IsIndex, Forest, IsPathIndex, Ranked;
    match m
    case Link(p) => LinkToNewExactly(l, id, r, newId, path, b, p);
    case Address(a) => OwnerIsNewExactly(l, id, r, newId, path, b, mid, byEmail, a);
    case NoMention =>
  }

  lemma NewPage(l: Ledger, id: string, r: SplitRequest, newId: string, path: string)
    requires Splittable(l, id, r)
    ensures newId in Split(l, id, r, newId, path) && Split(l, id, r, newId, path)[newId].path == path
  {
  }

  /** A note mentions the new dossier exactly if it names a moved address as an attendee or links to the new page. */
  lemma MentionsNewExactly(l: Ledger, id: string, r: SplitRequest, newId: string, path: string,
                           b: Basis, mid: Ledger, byEmail: map<string, string>, note: Note)
    requires SplitThenPass(l, id, r, newId, path, b, mid, byEmail)
    ensures Mentions(b, byEmail, note, newId) <==>
      exists j | 0 <= j < |note.values| :: MentionsSplit(MentionAt(b, note, j), r, path)
  {
    hide SplitThenPass, Reached, MentionsSplit;
    NewIsUnretired(l, id, r, newId, path, b, mid, byEmail);
    forall j | 0 <= j < |note.values|
      ensures Reached(b, byEmail, MentionAt(b, note, j)) == Some(newId) <==>
        MentionsSplit(MentionAt(b, note, j), r, path)
    {
      ReachesNewExactly(l, id, r, newId, path, b, mid, byEmail, MentionAt(b, note, j));
    }
  }

  lemma NewIsUnretired(l: Ledger, id: string, r: SplitRequest, newId: string, path: string,
                       b: Basis, mid: Ledger, byEmail: map<string, string>)
    requires SplitThenPass(l, id, r, newId, path, b, mid, byEmail)
    ensures Unretired(b, newId) && ValidBasis(b) && id in l
  {
    SplitPlaces(l, id, r, newId, path);
  }

  // ----- From a ledger that is up to date -----

  /** A pass over the notes would leave the ledger as it is: `now` is that pass. */
  ghost predicate UpToDate(l: Ledger, now: Basis, index: map<string, string>) {
    now.start == l && ValidBasis(now) && Contributes(now, l, index)
  }

  ghost predicate SameNotes(a: Basis, b: Basis) {
    a.notes == b.notes && a.fields == b.fields && a.suppressed == b.suppressed
  }

  lemma PrefixOfSameLength(facts: seq<Fact>, gathered: seq<Fact>)
    requires facts <= gathered && |facts| == |gathered|
    ensures facts == gathered
  {
  }

  /** What a pass leaves as it is, is settled, and every mention has its fact. */
  lemma UpToDateMeans(l: Ledger, now: Basis, index: map<string, string>, id: string)
    requires UpToDate(l, now, index) && id in l
    ensures ValidBasis(now) && SettledAll(l[id].facts, now.notes) == l[id].facts
    ensures forall x | x in now.notes :: Complete(now, index, x, id, l[id].facts)
  {
    hide Complete, Grown, Resolved, ValidBasis, IsIndex;
    assert Passed(now, index, l[id], id);
    var gathered: seq<Fact> :| Pass(now, index, l[id], id, gathered);
    PrefixOfSameLength(l[id].facts, gathered);
  }

  lemma {:induction false} RootSame(l: Ledger, apart: Ledger, newId: string, id: string, rank: map<string, nat>,
                                    other: map<string, nat>)
    requires id in l && newId !in l && Ranked(l, rank) && Ranked(apart, other) && apart.Keys == l.Keys + {newId}
    requires forall d | d in l :: apart[d].redirect == l[d].redirect
    ensures Root(apart, id, other) == Root(l, id, rank)
    decreases if id in rank then rank[id] else 0
  {
    if l[id].redirect.Some? {
      RootSame(l, apart, newId, l[id].redirect.value, rank, other);
    }
  }

  lemma LinkBefore(l: Ledger, id: string, r: SplitRequest, newId: string, path: string, b: Basis, now: Basis,
                   p: string, d: string)
    requires Splittable(l, id, r) && newId !in l && b.start == Split(l, id, r, newId, path) && ValidBasis(b)
    requires now.start == l && ValidBasis(now) && d in l
    requires p in b.byPath && Root(b.start, b.byPath[p], b.rank) == d
    ensures p in now.byPath && Root(l, now.byPath[p], now.rank) == d
  {
    hide Split, Splittable, NoteLinks.WithoutMd;
    SplitPlaces(l, id, r, newId, path);
    var q := b.byPath[p];
    assert q != newId;
    assert b.start[q].path == l[q].path;
    RootSame(l, b.start, newId, q, now.rank, b.rank);
  }

  /** Between split and merge an old dossier keeps its place, and has no address it did not have. */
  lemma OldPlaces(l: Ledger, id: string, r: SplitRequest, newId: string, path: string, b: Basis, mid: Ledger, d: string)
    requires Splittable(l, id, r) && newId !in l && b.start == Split(l, id, r, newId, path) && Grown(b, mid) && d in l
    ensures d in b.start && d in mid && mid[d].redirect == l[d].redirect && b.start[d].retired == l[d].retired
    ensures Elements(mid[d].emails) <= Elements(l[d].emails)
  {
    hide Split, Splittable;
    SplitPlaces(l, id, r, newId, path);
    assert SameIdentity(b.start[d], mid[d]);
  }

  lemma OwnerBefore(l: Ledger, id: string, r: SplitRequest, newId: string, path: string, b: Basis, mid: Ledger,
                    byEmail: map<string, string>, index: map<string, string>, a: string, d: string)
    requires Splittable(l, id, r) && newId !in l && b.start == Split(l, id, r, newId, path)
    requires Grown(b, mid) && IsIndex(mid, byEmail) && IsIndex(l, index) && d in l
    requires a in byEmail && byEmail[a] == d
    ensures a in index && index[a] == d
  {
    hide Split, Splittable, Grown;
    OldPlaces(l, id, r, newId, path, b, mid, d);
    assert a in Elements(mid[d].emails);
    assert a in Elements(l[d].emails);
  }

  lemma ReachedBefore(l: Ledger, id: string, r: SplitRequest, newId: string, path: string,
                      b: Basis, mid: Ledger, byEmail: map<string, string>, now: Basis, index: map<string, string>,
                      m: Mention, d: string)
    requires SplitThenPass(l, id, r, newId, path, b, mid, byEmail) && now.start == l && ValidBasis(now)
      && IsIndex(l, index)
    requires d in l && Reached(b, byEmail, m) == Some(d)
    ensures Reached(now, index, m) == Some(d)
  {
    hide Passed, Resolved, Mentions, FreshFor, KindsAgree, OwnsAlone, AllWellFormed, AllSound, Split, Splittable,
      Forest, IsIndex, IsPathIndex, Ranked, Grown;
    match m
    case Link(p) => LinkBefore(l, id, r, newId, path, b, now, p, d);
    case Address(a) => OwnerBefore(l, id, r, newId, path, b, mid, byEmail, index, a, d);
    case NoMention =>
  }

  /** After the split a note mentions no dossier that it did not mention before, but the new one. */
  lemma MentionedBefore(l: Ledger, id: string, r: SplitRequest, newId: string, path: string,
                        b: Basis, mid: Ledger, byEmail: map<string, string>, now: Basis, index: map<string, string>,
                        x: string, d: string)
    requires SplitThenPass(l, id, r, newId, path, b, mid, byEmail) && UpToDate(l, now, index) && SameNotes(now, b)
    requires d in l && x in b.notes && Mentions(b, byEmail, b.notes[x], d)
    ensures Mentions(now, index, b.notes[x], d)
  {
    hide Passed, Resolved, FreshFor, Inv, Split, Splittable, Grown, IsIndex, Reached, ValidBasis;
    var note := b.notes[x];
    var j :| 0 <= j < |note.values| && Reached(b, byEmail, MentionAt(b, note, j)) == Some(d);
    assert MentionAt(now, note, j) == MentionAt(b, note, j);
    ReachedBefore(l, id, r, newId, path, b, mid, byEmail, now, index, MentionAt(b, note, j), d);
    OldPlaces(l, id, r, newId, path, b, mid, d);
  }

  /** So a pass adds no fact to an old dossier. */
  lemma NothingAdded(l: Ledger, id: string, r: SplitRequest, newId: string, path: string,
                     b: Basis, mid: Ledger, byEmail: map<string, string>, now: Basis, index: map<string, string>,
                     d: string, f: Fact)
    requires SplitThenPass(l, id, r, newId, path, b, mid, byEmail) && UpToDate(l, now, index) && SameNotes(now, b)
      && d in l
    ensures !Added(b, byEmail, d, l[d].facts, f)
  {
    hide SplitThenPass, UpToDate, Mentions;
    NewIsUnretired(l, id, r, newId, path, b, mid, byEmail);
    if Added(b, byEmail, d, l[d].facts, f) {
      var x :| x in b.notes && Mentions(b, byEmail, b.notes[x], d) && f == MetaFact(b.notes[x], d)
        && !Has(l[d].facts, f.id);
      UpToDateMeans(l, now, index, d);
      assert Complete(now, index, x, d, l[d].facts);
      MentionedBefore(l, id, r, newId, path, b, mid, byEmail, now, index, x, d);
    }
  }

  /** A pass that adds no fact to a settled dossier leaves facts and version as they are. */
  lemma PassKeeps(b: Basis, byEmail: map<string, string>, e: Entity, d: string, held: Entity)
    requires ValidBasis(b) && Passed(b, byEmail, e, d) && d in b.start && b.start[d] == held && SameIdentity(held, e)
    requires SettledAll(held.facts, b.notes) == held.facts && forall f :: !Added(b, byEmail, d, held.facts, f)
    ensures e == held
  {
    hide ValidBasis, Added, Complete, Mentioned, SettledAll, Flips, DistinctFacts, Gathers;
    var gathered: seq<Fact> :| Pass(b, byEmail, e, d, gathered);
    var more := PassGathers(b, byEmail, gathered, d);
    if more != [] {
      GatheredIsAdded(b, byEmail, gathered, d, held.facts, more, more[0]);
    }
    GatheredPlain(b, byEmail, gathered, d, held.facts, more);
    NoFlips(held.facts, b.notes);
  }

  lemma GatheredPlain(b: Basis, byEmail: map<string, string>, gathered: seq<Fact>, d: string, held: seq<Fact>,
                      more: seq<Fact>)
    requires ValidBasis(b) && Gathers(b, byEmail, gathered, d, held, more)
    ensures more == [] ==> gathered == held
  {
    hide ValidBasis, Complete, Mentioned, DistinctFacts;
    assert held + [] == held;
  }

  lemma OtherKept(l: Ledger, id: string, r: SplitRequest, newId: string, path: string,
                  b: Basis, mid: Ledger, byEmail: map<string, string>, now: Basis, index: map<string, string>,
                  d: string)
    requires SplitThenPass(l, id, r, newId, path, b, mid, byEmail) && UpToDate(l, now, index) && SameNotes(now, b)
      && d in l && d != id
    ensures d in mid && mid[d] == l[d]
  {
    hide Inv, FreshFor, Split, Splittable, Added, Mentions, Resolved, IsIndex, Complete, ValidBasis, Mentioned,
      UpToDate, SettledAll, Passed;
    SplitPlaces(l, id, r, newId, path);
    assert b.start[d] == l[d] && SameIdentity(b.start[d], mid[d]);
    forall f ensures !Added(b, byEmail, d, l[d].facts, f) {
      NothingAdded(l, id, r, newId, path, b, mid, byEmail, now, index, d, f);
    }
    UpToDateMeans(l, now, index, d);
    PassKeeps(b, byEmail, mid[d], d, l[d]);
  }

  /** Every wanted address had its owner, so the pass makes no new dossier. */
  lemma NobodyMade(l: Ledger, id: string, r: SplitRequest, newId: string, path: string,
                   b: Basis, mid: Ledger, byEmail: map<string, string>, now: Basis, index: map<string, string>,
                   d: string)
    requires SplitThenPass(l, id, r, newId, path, b, mid, byEmail) && UpToDate(l, now, index) && SameNotes(now, b)
    requires d in mid
    ensures d in b.start
  {
    hide Inv, FreshFor, Split, Splittable, Passed, IsIndex, ValidBasis, Taken;
    if d !in b.start {
      var a := mid[d].emails[0];
      assert Wanted(b, a) && a !in b.suppressed && !Taken(b.start, mid[d].emails, None) && mid[d].emails == [a];
      WantedIsOwned(l, b, now, index, a);
      StillTaken(l, id, r, newId, path, b, index[a], a);
    }
  }

  lemma WantedIsOwned(l: Ledger, b: Basis, now: Basis, index: map<string, string>, a: string)
    requires UpToDate(l, now, index) && SameNotes(now, b) && Wanted(b, a) && a !in b.suppressed
    ensures a in index && index[a] in l && l[index[a]].redirect == None && a in l[index[a]].emails
  {
    hide Passed, Grown, ValidBasis;
    SameWishes(now, b, a);
    var x, j :| x in now.notes && 0 <= j < |now.notes[x].values| && MentionAt(now, now.notes[x], j) == Address(a);
    assert Resolved(now, index, now.notes[x], |now.notes[x].values|);
    assert Owned(now, index, MentionAt(now, now.notes[x], j));
  }

  lemma StillTaken(l: Ledger, id: string, r: SplitRequest, newId: string, path: string, b: Basis, owner: string,
                   a: string)
    requires Splittable(l, id, r) && newId !in l && b.start == Split(l, id, r, newId, path)
    requires owner in l && l[owner].redirect == None && a in l[owner].emails
    ensures Taken(b.start, [a], None)
  {
    hide Split, Splittable;
    SplitPlaces(l, id, r, newId, path);
    assert a in Elements(l[owner].emails);
    assert a in Elements(b.start[owner].emails) || a in Elements(b.start[newId].emails);
    var d := if a in b.start[owner].emails then owner else newId;
    assert a in [a] && d in b.start && b.start[d].redirect == None && a in b.start[d].emails;
  }

  /**
   From a ledger that was up to date, what the split, the pass and the merge back together change is
   this dossier only, and its facts are exactly what they were if and only if no chosen one waited
   for its evidence and no note names a moved address as an attendee or links to the new page.
   */
  lemma UndoneExactly(l: Ledger, id: string, r: SplitRequest, newId: string, path: string,
                      b: Basis, mid: Ledger, byEmail: map<string, string>, now: Basis, index: map<string, string>)
    requires SplitThenPass(l, id, r, newId, path, b, mid, byEmail) && UpToDate(l, now, index) && SameNotes(now, b)
    ensures Mergeable(mid, newId, id)
    ensures var back := Merged(mid, newId, id);
      && back.Keys == l.Keys + {newId}
      && (forall other | other in l && other != id :: back[other] == l[other])
      && (back[id].facts == l[id].facts <==>
            && (forall f | f in l[id].facts && f.id in r.facts :: !f.forEvidence)
            && forall x, j | x in b.notes && 0 <= j < |b.notes[x].values| ::
              !MentionsSplit(MentionAt(b, b.notes[x], j), r, path))
  {
    hide Inv, FreshFor, Split, Splittable, Mentions, Extra, Merged, Contributes, UpToDate, Settled,
      NothingNewMentioned, ValidBasis, MentionsSplit, SettledAll;
    var more := SplitPassMergeBack(l, id, r, newId, path, b, mid, byEmail);
    RestoredExactly(l, id, r, newId, path, b, mid, byEmail);
    NewIsUnretired(l, id, r, newId, path, b, mid, byEmail);
    SettledBefore(l, now, index, id);
    NothingNewExactly(l, id, r, newId, path, b, mid, byEmail, now, index);
    KeysKept(l, id, r, newId, path, b, mid, byEmail, now, index);
    forall other | other in l && other != id ensures Merged(mid, newId, id)[other] == l[other] {
      OtherKept(l, id, r, newId, path, b, mid, byEmail, now, index, other);
    }
  }

  lemma KeysKept(l: Ledger, id: string, r: SplitRequest, newId: string, path: string,
                 b: Basis, mid: Ledger, byEmail: map<string, string>, now: Basis, index: map<string, string>)
    requires SplitThenPass(l, id, r, newId, path, b, mid, byEmail) && UpToDate(l, now, index) && SameNotes(now, b)
    ensures mid.Keys == l.Keys + {newId}
  {
    hide Inv, FreshFor, Split, Splittable, UpToDate, Passed, Resolved, IsIndex, ValidBasis;
    SplitPlaces(l, id, r, newId, path);
    forall d | d in mid ensures d in b.start {
      NobodyMade(l, id, r, newId, path, b, mid, byEmail, now, index, d);
    }
    assert forall d | d in b.start :: d in mid;
    assert mid.Keys == b.start.Keys;
  }

  lemma SettledBefore(l: Ledger, now: Basis, index: map<string, string>, id: string)
    requires UpToDate(l, now, index) && id in l
    ensures forall f | f in l[id].facts :: Settled(f, now.notes) == f
  {
    hide Settled, UpToDate;
    UpToDateMeans(l, now, index, id);
    forall f | f in l[id].facts ensures Settled(f, now.notes) == f {
      var k :| 0 <= k < |l[id].facts| && l[id].facts[k] == f;
      assert SettledAll(l[id].facts, now.notes)[k] == Settled(f, now.notes);
    }
  }

  lemma NothingNewExactly(l: Ledger, id: string, r: SplitRequest, newId: string, path: string,
                          b: Basis, mid: Ledger, byEmail: map<string, string>, now: Basis, index: map<string, string>)
    requires SplitThenPass(l, id, r, newId, path, b, mid, byEmail) && UpToDate(l, now, index) && SameNotes(now, b)
    ensures ValidBasis(b) && id in l
    ensures NothingNewMentioned(b, byEmail, l[id].facts, id, newId) <==>
      forall x, j | x in b.notes && 0 <= j < |b.notes[x].values| :: !MentionsSplit(MentionAt(b, b.notes[x], j), r, path)
  {
    hide SplitThenPass, UpToDate, Mentions, MentionsSplit, ValidBasis;
    NewIsUnretired(l, id, r, newId, path, b, mid, byEmail);
    forall x | x in b.notes && Mentions(b, byEmail, b.notes[x], id) ensures Has(l[id].facts, MetaId(b.notes[x], id)) {
      NothingAdded(l, id, r, newId, path, b, mid, byEmail, now, index, id, MetaFact(b.notes[x], id));
    }
    forall x | x in b.notes
      ensures Mentions(b, byEmail, b.notes[x], newId) <==>
        exists j | 0 <= j < |b.notes[x].values| :: MentionsSplit(MentionAt(b, b.notes[x], j), r, path)
    {
      MentionsNewExactly(l, id, r, newId, path, b, mid, byEmail, b.notes[x]);
    }
  }

  /** The three calls in a row, each beginning as the program's do. */
  method SplitAndMergeBack(service: EntityService, id: string, r: SplitRequest, newId: string, path: string,
                           notes: Notes, fields: set<string>, suppressed: set<string>)
    returns (ghost more: seq<Fact>, ghost b: Basis, ghost index: map<string, string>)
    requires Inv(service.entities) && Splittable(service.entities, id, r) && newId !in service.entities
    requires FreshFor(service.entities[id].facts, newId) && Keyed(notes)
    requires var apart := Split(service.entities, id, r, newId, path);
      forall x, y | x in apart && y in apart && x != y ::
        NoteLinks.WithoutMd(apart[x].path) != NoteLinks.WithoutMd(apart[y].path)
    modifies service
    ensures Inv(service.entities) && ValidBasis(b) && b.notes == notes && id in service.entities
      && newId in service.entities
    ensures service.entities[id].facts == BackAll(old(service.entities)[id].facts, r.facts, notes) + more
    ensures forall f :: f in more <==> Extra(b, index, old(service.entities)[id].facts, id, newId, f)
    ensures service.entities[newId].redirect == Some(id)
  {
    hide Inv, Split, Splittable, Mergeable, Merged, FreshFor, BackAll, Extra, Contributes, ValidBasis;
    ghost var l := service.entities;
    var problem := service.SplitOff(id, r, newId, path);
    b, index := service.Contribute(notes, fields, suppressed);
    ghost var mid := service.entities;
    more := SplitPassMergeBack(l, id, r, newId, path, b, mid, index);
    problem := service.Merge(newId, id);
    MergeableIn(mid, newId, id);
  }

  lemma MergeableIn(l: Ledger, id: string, target: string)
    requires Mergeable(l, id, target)
    ensures id in l && target in l
  {
  }

  // ----- An address moved and merged back -----

  const ADDRESS := "a@b"
  const FIELD := "attendees"
  const NOTE := Note("N", "Meeting", "Notes/Meeting.md", "h", [(FIELD, ADDRESS)])
  const CLAIM := Fact(Minted("c"), "role", "chair", None, Confirmed, false, Evidence(None, "", "", ""), None)
  const KNOWN := [CLAIM, MetaFact(NOTE, "P")]
  const LEDGER: Ledger := map["P" :=
    Entity("P", PersonKind, "Ann", [], [ADDRESS], "People/Ann.md", 1, KNOWN, false, None, false)]
  const REQUEST := SplitRequest("Bob", [Minted("c")], [ADDRESS])

  lemma AddressReads()
    ensures Email(ADDRESS) == Some(ADDRESS)
    ensures MentionOf(FIELD, ADDRESS, {FIELD}) == Address(ADDRESS)
  {
    assert ADDRESS[|ADDRESS| - 1] == 'b' && ADDRESS[..2] == "a@";
    assert LastAt("a@") == Some(1);
    assert LastAt(ADDRESS) == Some(1);
    assert ADDRESS[2..] == "b" && Lower("b") == "b" && ADDRESS[..1] == "a";
    assert forall c | c in ADDRESS :: !Forbidden(c);
    assert ADDRESS[..1] + "@" + Lower(ADDRESS[2..]) == ADDRESS;
  }

  lemma LedgerIsSound()
    ensures Inv(LEDGER) && Splittable(LEDGER, "P", REQUEST) && FreshFor(KNOWN, "Q")
  {
    AddressReads();
    assert Ranked(LEDGER, map[]);
    assert CLAIM in KNOWN;
    assert SoundFacts(KNOWN, LEDGER);
    assert Has(KNOWN, Minted("c"));
  }

  /**
   An input for which the undoing is not whole: the note names the moved address, so the pass records
   it with the new dossier, and the merge back leaves that record beside the old one.
   */
  lemma MovedAddressLeavesAFact(b: Basis, mid: Ledger, byEmail: map<string, string>)
    requires b.start == Split(LEDGER, "P", REQUEST, "Q", "People/Bob.md") && b.notes == map["N" := NOTE]
      && b.fields == {FIELD}
    requires ValidBasis(b) && Contributes(b, mid, byEmail)
    ensures Mergeable(mid, "Q", "P") && Merged(mid, "Q", "P")["P"].facts == KNOWN + [MetaFact(NOTE, "Q")]
  {
    hide Extra, Merged, BackAll, Mentions, ValidBasis, Contributes, Split, Inv, FreshFor, Splittable;
    LedgerIsSound();
    var more := SplitPassMergeBack(LEDGER, "P", REQUEST, "Q", "People/Bob.md", b, mid, byEmail);
    OnlyTheMoved(b, mid, byEmail);
    KnownComesBack();
    JustOne(KNOWN, more, MetaFact(NOTE, "Q"));
  }

  lemma KnownComesBack()
    ensures BackAll(KNOWN, REQUEST.facts, map["N" := NOTE]) == KNOWN
  {
    var notes := map["N" := NOTE];
    forall k | 0 <= k < 2 ensures BackFact(KNOWN[k], REQUEST.facts, notes) == KNOWN[k] {
    }
  }

  lemma JustOne(facts: seq<Fact>, more: seq<Fact>, f: Fact)
    requires DistinctFacts(facts + more) && forall g :: g in more <==> g == f
    ensures more == [f]
  {
    assert f in more;
    forall k | 0 <= k < |more| ensures more[k] == f {
      assert more[k] in more;
    }
    if |more| > 1 {
      TwoDiffer(facts, more);
    }
  }

  lemma TwoDiffer(facts: seq<Fact>, more: seq<Fact>)
    requires DistinctFacts(facts + more) && |more| > 1
    ensures more[0].id != more[1].id
  {
    assert (facts + more)[|facts|] == more[0] && (facts + more)[|facts| + 1] == more[1];
  }

  lemma OnlyTheMoved(b: Basis, mid: Ledger, byEmail: map<string, string>)
    requires SplitThenPass(LEDGER, "P", REQUEST, "Q", "People/Bob.md", b, mid, byEmail)
      && b.notes == map["N" := NOTE] && b.fields == {FIELD}
    ensures forall f :: Extra(b, byEmail, KNOWN, "P", "Q", f) <==> f == MetaFact(NOTE, "Q")
  {
    hide SplitThenPass, Reached, MentionOf;
    AddressReads();
    NewIsUnretired(LEDGER, "P", REQUEST, "Q", "People/Bob.md", b, mid, byEmail);
    assert MentionAt(b, NOTE, 0) == Address(ADDRESS);
    ReachesNewExactly(LEDGER, "P", REQUEST, "Q", "People/Bob.md", b, mid, byEmail, Address(ADDRESS));
    assert MentionsSplit(Address(ADDRESS), REQUEST, "People/Bob.md");
    assert Reached(b, byEmail, MentionAt(b, NOTE, 0)) == Some("Q");
    assert Mentions(b, byEmail, NOTE, "Q") && !Mentions(b, byEmail, NOTE, "P");
    forall f ensures Extra(b, byEmail, KNOWN, "P", "Q", f) <==> f == MetaFact(NOTE, "Q") {
      if Extra(b, byEmail, KNOWN, "P", "Q", f) {
        var x :| x in b.notes && (Mentions(b, byEmail, b.notes[x], "P") || f == MetaFact(b.notes[x], "Q"));
        assert b.notes[x] == NOTE;
      } else {
        assert b.notes["N"] == NOTE;
      }
    }
  }
}
