/**
 Monthly filing of a reviewed note: its source pages move to their month, one after another, and
 the note follows last. A journal keeps page paths the body may still link to, so that an
 interrupted filing can be taken up again. `power` is the number of durable writes a call completes
 before it is interrupted.
 */
module Filing {
  import opened Results
  import opened FilingPaths
  import FilingPages
  import NoteLinks

  // ----- The journal -----

  datatype Item = Item(id: string, from: string, linkFrom: string, linkFroms: set<string>, to: string, revision: nat)

  /** Every page the body may still link to. */
  function Links(item: Item): set<string> {
    {item.linkFrom, item.from} + item.linkFroms
  }

  /** The journal entry of a source, given its entry in the journal before. */
  function Planned(previous: Option<Item>, id: string, manifest: Manifest, to: string): Item {
    match previous
    case None => Item(id, manifest.projection, manifest.projection, {manifest.projection}, to, manifest.current)
    case Some(p) =>
      Item(id, manifest.projection, p.linkFrom,
           {p.linkFrom, manifest.projection, p.from, p.to} + p.linkFroms, to, manifest.current)
  }

  function ItemOf(items: seq<Item>, id: string): Option<Item> {
    if items == [] then None
    else if items[0].id == id then Some(items[0])
    else ItemOf(items[1..], id)
  }

  lemma {:induction false} ItemOfFinds(items: seq<Item>, id: string)
    ensures ItemOf(items, id).Some? ==> ItemOf(items, id).value in items && ItemOf(items, id).value.id == id
    ensures ItemOf(items, id).None? ==> forall i | i in items :: i.id != id
  {
    if items != [] {
      ItemOfFinds(items[1..], id);
      assert items == [items[0]] + items[1..];
    }
  }

  datatype Note = Note(path: string, body: string, sources: set<string>, reviewed: bool, date: string)

  /** A content hash is modelled by the content: everything but the path. */
  predicate SameContent(a: Note, b: Note) {
    a.(path := b.path) == b
  }

  datatype Plan = Plan(month: string, folder: string, items: seq<Item>, complete: bool, content: Option<Note>,
                       copies: seq<Note>)

  datatype Review = Review(reviewed: bool, sources: map<string, Option<nat>>)

  /** Where a note goes: it stays if it is in the folder. */
  function PlaceOf(path: string, folder: string, name: string): (p: string)
    ensures InFolder(p, folder) && (InFolder(path, folder) ==> p == path)
  {
    if InFolder(path, folder) then path else folder + "/" + name
  }

  predicate InFolder(path: string, folder: string) {
    folder + "/" <= path
  }

  /** No manifest names a page that is not there, or another source's page. */
  predicate ManifestsNamePages(files: map<string, File>, manifests: map<string, Manifest>) {
    forall id | id in manifests :: PageOf(files, manifests[id].projection, id)
  }

  /** A link that contains a link to one of the new pages: replacing is no way to be rid of it. */
  ghost predicate HoldsTarget(path: string, items: seq<Item>) {
    exists i | i in items :: NoteLinks.Occurs(NoteLinks.Link(path), NoteLinks.Link(i.to))
  }

  /** The body links to no former page of any item, whatever the former pages are called. */
  ghost predicate Relinked(body: string, items: seq<Item>) {
    (forall i | i in items :: NoteLinks.Single(i.to)) ==>
      forall i, l | i in items && l in Links(i) && !HoldsTarget(l, items) :: !NoteLinks.Occurs(body, NoteLinks.Link(l))
  }

  /** A version the note had when it had `since` versions before, or later. */
  ghost predicate SeenSince(past: seq<Note>, since: nat, n: Note) {
    exists k: nat :: since <= k < |past| && past[k] == n
  }

  /** What rewriting may make of a body: links a plan covers become links to the new page of their item. */
  ghost predicate CameOf(before: string, after: string, items: seq<Item>) {
    exists moves :: MovesOf(items, moves) && NoteLinks.ComesOf(moves, before, after)
  }

  /**
   A version the note had when the plan was written, or got later and not by the filing, is what a
   filed note came of: its links were exchanged and it was moved, and nothing else changed.
   */
  ghost predicate FiledFrom(past: seq<Note>, since: nat, ours: set<nat>, k: nat, n: Note, items: seq<Item>) {
    && since <= k < |past| && (k == since || k !in ours)
    && CameOf(past[k].body, n.body, items) && n == past[k].(body := n.body, path := n.path)
  }

  /**
   A completed filing left the note, as it was seen after its plan was written, in its folder and
   without a link to a former page, and otherwise as it was.
   */
  ghost predicate CompletionOk(journal: Option<Plan>, past: seq<Note>, since: nat, ours: set<nat>) {
    journal.Some? && journal.value.complete ==>
      && journal.value.content.Some?
      && SeenSince(past, since, journal.value.content.value)
      && InFolder(journal.value.content.value.path, journal.value.folder)
      && Relinked(journal.value.content.value.body, journal.value.items)
      && exists k: nat :: FiledFrom(past, since, ours, k, journal.value.content.value, journal.value.items)
  }

  // ----- Every plan that was ever written -----

  function Entries(history: seq<seq<Item>>): seq<Item> {
    if history == [] then [] else history[|history| - 1]
  }

  ghost predicate MadeFrom(before: seq<Item>, i: Item) {
    exists m: Manifest :: i == Planned(ItemOf(before, i.id), i.id, m, i.to)
  }

  ghost predicate OnePerSource(items: seq<Item>) {
    forall i, j | 0 <= i < j < |items| :: items[i].id != items[j].id
  }

  /** Each plan is made from the one before it, the oldest from none. */
  ghost predicate Follows(history: seq<seq<Item>>)
    decreases |history|
  {
    history != [] ==>
      var before := history[..|history| - 1];
      && Follows(before)
      && OnePerSource(Entries(history))
      && forall i | i in Entries(history) :: MadeFrom(Entries(before), i)
  }

  function PathsOf(items: seq<Item>, id: string): set<string> {
    match ItemOf(items, id)
    case None => {}
    case Some(i) => {i.from, i.to}
  }

  /** Every page path any plan ever had for a source. */
  function Ever(history: seq<seq<Item>>, id: string): set<string>
    decreases |history|
  {
    if history == [] then {} else PathsOf(Entries(history), id) + Ever(history[..|history| - 1], id)
  }

  /** The page paths of the latest plans the source was in without a break. */
  function Unbroken(history: seq<seq<Item>>, id: string): set<string>
    decreases |history|
  {
    if history == [] || ItemOf(Entries(history), id).None? then {}
    else PathsOf(Entries(history), id) + Unbroken(history[..|history| - 1], id)
  }

  /** The plans up to the last one without the source. */
  function UpToBreak(history: seq<seq<Item>>, id: string): seq<seq<Item>>
    decreases |history|
  {
    if history == [] || ItemOf(Entries(history), id).None? then history
    else UpToBreak(history[..|history| - 1], id)
  }

  lemma {:induction false} ItemOfUnique(items: seq<Item>, i: Item)
    requires OnePerSource(items) && i in items
    ensures ItemOf(items, i.id) == Some(i)
  {
    if items[0] != i {
      var k: nat :| k < |items| && items[k] == i;
      assert items[0].id != items[k].id;
      assert i in items[1..] by {
        assert items[1..][k - 1] == i;
      }
      ItemOfUnique(items[1..], i);
    }
  }

  lemma PlannedLinks(previous: Option<Item>, id: string, manifest: Manifest, to: string)
    ensures var i := Planned(previous, id, manifest, to);
      Links(i) == {manifest.projection} + (if previous.Some? then Links(previous.value) + {previous.value.to} else {})
  {
  }

  /** The journal covers exactly the page paths of the plans the source was in without a break. */
  lemma {:induction false} CoverageIsExact(history: seq<seq<Item>>, i: Item)
    requires Follows(history) && i in Entries(history)
    ensures Links(i) + {i.to} == Unbroken(history, i.id)
    decreases |history|
  {
    hide Planned, Links;
    var before := history[..|history| - 1];
    ItemOfUnique(Entries(history), i);
    assert MadeFrom(Entries(before), i);
    var m: Manifest :| i == Planned(ItemOf(Entries(before), i.id), i.id, m, i.to);
    var previous := ItemOf(Entries(before), i.id);
    PlannedLinks(previous, i.id, m, i.to);
    PlannedPlaces(previous, i.id, m, i.to);
    if previous.Some? {
      ItemOfFinds(Entries(before), i.id);
      CoverageIsExact(before, previous.value);
    }
  }

  lemma PlannedPlaces(previous: Option<Item>, id: string, manifest: Manifest, to: string)
    ensures var i := Planned(previous, id, manifest, to); i.id == id && i.from == manifest.projection && i.to == to
  {
  }

  lemma {:induction false} EverSplits(history: seq<seq<Item>>, id: string)
    ensures Ever(history, id) == Unbroken(history, id) + Ever(UpToBreak(history, id), id)
    decreases |history|
  {
    if history != [] && ItemOf(Entries(history), id).Some? {
      EverSplits(history[..|history| - 1], id);
    }
  }

  /**
   Every page path a source ever had is covered if and only if each one planned before it last was
   out of the note has been planned again since.
   */
  lemma EverCoveredExactly(history: seq<seq<Item>>, i: Item)
    requires Follows(history) && i in Entries(history)
    ensures Ever(history, i.id) <= Links(i) + {i.to} <==>
      Ever(UpToBreak(history, i.id), i.id) <= Unbroken(history, i.id)
  {
    CoverageIsExact(history, i);
    EverSplits(history, i.id);
  }

  /** The journal is the last plan, and every source of it has its manifest. */
  ghost predicate JournalOk(journal: Option<Plan>, manifests: map<string, Manifest>, history: seq<seq<Item>>) {
    && Follows(history)
    && (journal.None? ==> history == [])
    && (journal.Some? ==>
          && history != [] && journal.value.items == Entries(history)
          && forall i | i in journal.value.items :: i.id in manifests)
  }

  // ----- Relinking the note -----

  /** Every page removed meanwhile is the old page of one of the items that moves. */
  ghost predicate OldPages(before: seq<string>, after: seq<string>, items: seq<Item>) {
    before <= after && forall p | p in after[|before|..] :: exists i | i in items :: p == i.from && i.from != i.to
  }

  predicate MovesOf(items: seq<Item>, moves: seq<NoteLinks.Move>) {
    && (forall i, l | i in items && l in Links(i) :: NoteLinks.Move(l, i.to) in moves)
    && forall m | m in moves :: OneOf(items, m)
  }

  predicate OneOf(items: seq<Item>, m: NoteLinks.Move) {
    exists i | i in items :: m.from in Links(i) && m.to == i.to
  }

  lemma RewritingRelinks(body: string, items: seq<Item>, moves: seq<NoteLinks.Move>)
    requires MovesOf(items, moves)
    ensures Relinked(NoteLinks.Rewritten(body, moves), items)
    ensures CameOf(body, NoteLinks.Rewritten(body, moves), items)
  {
    NoteLinks.RewrittenComesOf(body, moves);
    hide NoteLinks.Rewritten, NoteLinks.Occurs, NoteLinks.Link, NoteLinks.Single, NoteLinks.ComesOf, Links;
    if forall i | i in items :: NoteLinks.Single(i.to) {
      forall i, l | i in items && l in Links(i) && !HoldsTarget(l, items)
        ensures !NoteLinks.Occurs(NoteLinks.Rewritten(body, moves), NoteLinks.Link(l))
      {
        assert NoteLinks.Move(l, i.to) in moves;
        if NoteLinks.Occurs(NoteLinks.Rewritten(body, moves), NoteLinks.Link(l)) {
          NoteLinks.RewrittenLinks(body, moves, l);
        }
      }
    }
  }

  /**
   What that is worth: a completed body has no link to a page that was covered and never filed, or
   filed flat, whatever its title is; nor one to any other covered page without brackets in its path,
   such as a place planned under another month, unless it is a place of the plan itself.
   */
  lemma NoFormerLinkLeft(sources: string, body: string, items: seq<Item>, i: Item, was: string, stem: string)
    requires NoBracket(sources) && IsMonth(was) && '/' !in stem && i in items && Relinked(body, items)
    requires forall j | j in items :: FiledUnder(sources, j.to)
    ensures PendingPath(sources, was, stem) in Links(i) ==>
      !NoteLinks.Occurs(body, NoteLinks.Link(PendingPath(sources, was, stem)))
    ensures FlatPath(sources, was, stem) in Links(i) ==>
      !NoteLinks.Occurs(body, NoteLinks.Link(FlatPath(sources, was, stem)))
    ensures forall l | l in Links(i) && NoBracket(l) && NoteLinks.Occurs(body, NoteLinks.Link(l)) :: IsTarget(l, items)
  {
    hide NoteLinks.Single, NoteLinks.Occurs, NoteLinks.Link, PendingPath, FlatPath, Links, Nested;
    forall j | j in items ensures
      && NoteLinks.Single(j.to)
      && !NoteLinks.Occurs(NoteLinks.Link(PendingPath(sources, was, stem)), NoteLinks.Link(j.to))
      && !NoteLinks.Occurs(NoteLinks.Link(FlatPath(sources, was, stem)), NoteLinks.Link(j.to))
    {
      var month, name :| IsMonth(month) && NoBracket(name) && j.to == Nested(sources, month, name + ".md");
      NestedHasNoBracket(sources, month, name);
      SingleWithoutBrackets(j.to);
      FormerLinkHoldsNoFiledOne(sources, was, stem, month, name);
    }
    forall l | l in Links(i) && NoBracket(l) && NoteLinks.Occurs(body, NoteLinks.Link(l)) ensures IsTarget(l, items) {
      assert HoldsTarget(l, items);
      var j :| j in items && NoteLinks.Occurs(NoteLinks.Link(l), NoteLinks.Link(j.to));
      SingleWithoutBrackets(l);
      NoteLinks.SingleHoldsOnlyItself(l, j.to);
    }
  }

  /**
   Where links stand apart, a filed body is the body it came of, stretch by stretch and in the same
   order, with the link to the new page of its item in the place of each covered link.
   */
  lemma FiledStretchesStay(before: string, after: string, items: seq<Item>) returns (pieces: seq<NoteLinks.Piece>)
    requires CameOf(before, after, items) && LinksApart(items)
    ensures NoteLinks.Was(pieces) == before && NoteLinks.Now(pieces) == after
    ensures forall k | 0 <= k < |pieces| && pieces[k].Swapped? :: OneOf(items, pieces[k].move)
  {
    hide NoteLinks.ComesOf, NoteLinks.Apart, NoteLinks.Was, NoteLinks.Now, OneOf;
    var moves: seq<NoteLinks.Move> :| MovesOf(items, moves) && NoteLinks.ComesOf(moves, before, after);
    MovesApart(items, moves);
    pieces := NoteLinks.StretchesStay(moves, before, after);
    forall k | 0 <= k < |pieces| && pieces[k].Swapped? ensures OneOf(items, pieces[k].move) {
      assert pieces[k].move in moves;
    }
  }

  /** A body that links to no page the plan covers stays as it is. */
  lemma UnlinkedStays(before: string, after: string, items: seq<Item>)
    requires CameOf(before, after, items)
    requires forall i, l | i in items && l in Links(i) :: !NoteLinks.Occurs(before, NoteLinks.Link(l))
    ensures after == before
  {
    hide NoteLinks.ComesOf, NoteLinks.Occurs, NoteLinks.Link, Links;
    var moves: seq<NoteLinks.Move> :| MovesOf(items, moves) && NoteLinks.ComesOf(moves, before, after);
    forall m | m in moves ensures !NoteLinks.Occurs(before, NoteLinks.Link(m.from)) {
      assert OneOf(items, m);
    }
    NoteLinks.NoneExchanged(moves, before, after);
  }

  /** New links have brackets at their ends only, and a covered link that contains one is that of its own item. */
  ghost predicate LinksApart(items: seq<Item>) {
    && (forall i | i in items :: NoteLinks.Single(i.to))
    && forall i, j, l | i in items && j in items && l in Links(j) :: LinkApart(i, j, l)
  }

  ghost predicate LinkApart(i: Item, j: Item, l: string) {
    NoteLinks.Occurs(NoteLinks.Link(l), NoteLinks.Link(i.to)) ==> NoteLinks.Link(l) == NoteLinks.Link(j.to)
  }

  lemma MovesApart(items: seq<Item>, moves: seq<NoteLinks.Move>)
    requires LinksApart(items) && MovesOf(items, moves)
    ensures NoteLinks.Apart(moves)
  {
    hide NoteLinks.Single, NoteLinks.Occurs, NoteLinks.Link, Links;
    forall m | m in moves ensures NoteLinks.Single(m.to) {
      assert OneOf(items, m);
    }
    forall m, n | m in moves && n in moves && NoteLinks.Occurs(NoteLinks.Link(n.from), NoteLinks.Link(m.to))
      ensures NoteLinks.Link(n.from) == NoteLinks.Link(n.to)
    {
      assert OneOf(items, m) && OneOf(items, n);
      var i :| i in items && m.from in Links(i) && m.to == i.to;
      var j :| j in items && n.from in Links(j) && n.to == j.to;
      assert LinkApart(i, j, n.from);
    }
  }

  /** The paths of a source whose page bears its name: before it was filed, flat, or in a month. */
  ghost predicate OwnPath(sources: string, id: string, l: string) {
    || (exists was, stem | IsMonth(was) && '/' !in stem :: l == PendingPath(sources, was, stem))
    || (exists was, stem | IsMonth(was) && '/' !in stem :: l == FlatPath(sources, was, stem))
    || OwnPlace(sources, id, l)
  }

  ghost predicate OwnPlace(sources: string, id: string, l: string) {
    exists month | IsMonth(month) :: l == Nested(sources, month, id + ".md")
  }

  /** The links of such sources stand apart, whatever titles their pages had, unless the sources folder has brackets. */
  lemma OwnPathsStandApart(sources: string, items: seq<Item>)
    requires NoBracket(sources) && OnePerSource(items)
    requires forall i | i in items :: ValidId(i.id) && OwnPlace(sources, i.id, i.to)
    requires forall i, l | i in items && l in Links(i) :: OwnPath(sources, i.id, l)
    ensures LinksApart(items)
  {
    hide Links, OwnPath, NoteLinks.Single, ValidId, LinkApart;
    forall i | i in items ensures NoteLinks.Single(i.to) {
      OwnPlaceIsPlain(sources, i.id, i.to);
    }
    forall i, j, l | i in items && j in items && l in Links(j) ensures LinkApart(i, j, l) {
      OwnPathApart(sources, i.id, i.to, j.id, l);
      if i.id == j.id {
        assert i == j;
      }
      OwnLinkApart(sources, i, j, l);
    }
  }

  lemma OwnPlaceIsPlain(sources: string, id: string, l: string)
    requires NoBracket(sources) && ValidId(id) && OwnPlace(sources, id, l)
    ensures NoBracket(l) && NoteLinks.Single(l)
  {
    var month :| IsMonth(month) && l == Nested(sources, month, id + ".md");
    NestedHasNoBracket(sources, month, id);
    SingleWithoutBrackets(l);
  }

  /** Such a path holds the link to another source's place never, and to its own source's only if it is that place. */
  lemma OwnPathApart(sources: string, id: string, to: string, other: string, l: string)
    requires NoBracket(sources) && ValidId(id) && ValidId(other)
    requires OwnPlace(sources, id, to) && OwnPath(sources, other, l)
    ensures NoteLinks.Occurs(NoteLinks.Link(l), NoteLinks.Link(to)) ==>
      id == other && NoteLinks.Link(l) == NoteLinks.Link(to)
  {
    hide NoteLinks.Single, NoteLinks.Occurs, NoteLinks.Link, PendingPath, FlatPath, Nested, ValidId;
    OwnPlaceIsPlain(sources, id, to);
    var month :| IsMonth(month) && to == Nested(sources, month, id + ".md");
    if was, stem :|
      IsMonth(was) && '/' !in stem && (l == PendingPath(sources, was, stem) || l == FlatPath(sources, was, stem)) {
      FormerLinkHoldsNoFiledOne(sources, was, stem, month, id);
    } else if NoteLinks.Occurs(NoteLinks.Link(l), NoteLinks.Link(to)) {
      OwnPlaceIsPlain(sources, other, l);
      NoteLinks.SingleHoldsOnlyItself(l, to);
      var later :| IsMonth(later) && l == Nested(sources, later, other + ".md");
      SameName(sources, month, id, later, other);
    }
  }

  lemma SameName(sources: string, month: string, id: string, later: string, other: string)
    requires IsMonth(month) && IsMonth(later) && ValidId(id) && ValidId(other)
    requires NoteLinks.Link(Nested(sources, month, id + ".md")) == NoteLinks.Link(Nested(sources, later, other + ".md"))
    ensures id == other
  {
    var a := sources + "/" + month[..4] + "/" + month + "/" + id;
    var b := sources + "/" + later[..4] + "/" + later + "/" + other;
    assert Nested(sources, month, id + ".md") == a + ".md" && Nested(sources, later, other + ".md") == b + ".md";
    LinkWithoutMd(a);
    LinkWithoutMd(b);
    assert ("[[" + a + "]]")[2..|a| + 2] == a && ("[[" + b + "]]")[2..|b| + 2] == b;
    assert a[|a| - 26..] == id && b[|b| - 26..] == other;
  }

  lemma OwnLinkApart(sources: string, i: Item, j: Item, l: string)
    requires NoteLinks.Occurs(NoteLinks.Link(l), NoteLinks.Link(i.to)) ==>
      i.id == j.id && NoteLinks.Link(l) == NoteLinks.Link(i.to)
    requires i.id == j.id ==> i == j
    ensures LinkApart(i, j, l)
  {
  }

  /** A path whose link is the link to one of the new pages. */
  ghost predicate IsTarget(path: string, items: seq<Item>) {
    exists i | i in items :: NoteLinks.Link(i.to) == NoteLinks.Link(path)
  }

  /** A place in a month folder of the sources, of a page whose name has no brackets. */
  ghost predicate FiledUnder(sources: string, to: string) {
    exists month, name | IsMonth(month) && NoBracket(name) :: to == Nested(sources, month, name + ".md")
  }

  lemma NestedHasNoBracket(sources: string, month: string, name: string)
    requires NoBracket(sources) && IsMonth(month) && NoBracket(name)
    ensures NoBracket(Nested(sources, month, name + ".md"))
  {
    MonthHasNoBracket(month);
  }

  lemma {:induction false} NothingMoves(body: string, moves: seq<NoteLinks.Move>)
    requires forall m | m in moves :: m.from == m.to
    ensures NoteLinks.Rewritten(body, moves) == body
  {
    if moves != [] {
      var last := moves[|moves| - 1];
      NothingMoves(body, moves[..|moves| - 1]);
      assert last in moves;
      NoteLinks.LinkEnds(last.from);
      ReplacedByItself(body, NoteLinks.Link(last.from));
    }
  }

  lemma {:induction false} ReplacedByItself(s: string, p: string)
    requires p != []
    ensures NoteLinks.Replace(s, p, p) == s
    decreases |s|
  {
    if |s| >= |p| {
      if s[..|p|] == p {
        ReplacedByItself(s[|p|..], p);
      } else {
        ReplacedByItself(s[1..], p);
        assert s == [s[0]] + s[1..];
      }
    }
  }

  /**
   A source that leaves a note after an attempt that moved its page, and is put back later: its
   first page is no longer covered, and the body keeps every link to it.
   */
  lemma ReturningSourceKeepsItsLinks(sources: string, id: string, month: string, stem: string, body: string)
    requires ValidId(id) && IsMonth(month)
    ensures var pending, to := PendingPath(sources, month, stem), Nested(sources, month, id + ".md");
      var first := Planned(None, id, Manifest(1, pending, ""), FiledPath(sources, "", id, month));
      var third := Planned(None, id, Manifest(1, to, to), FiledPath(sources, to, id, month));
      var history := [[first], [], [third]];
      && Follows(history) && pending in Ever(history, id) && pending !in Links(third) + {third.to}
      && forall moves | MovesOf([third], moves) :: NoteLinks.Rewritten(body, moves) == body
  {
    hide NoteLinks.Rewritten, Nested, PendingPath, FiledFlat, MadeFrom, Ever, MovesOf;
    var pending, to := PendingPath(sources, month, stem), Nested(sources, month, id + ".md");
    NestedIsNotFlat(sources, month, id + ".md");
    var first := Planned(None, id, Manifest(1, pending, ""), to);
    var third := Planned(None, id, Manifest(1, to, to), to);
    MadeFresh(id, Manifest(1, pending, ""), to);
    MadeFresh(id, Manifest(1, to, to), to);
    NextPlan([], [first]);
    NextPlan([[first]], []);
    NextPlan([[first], []], [third]);
    assert [] + [[first]] == [[first]] && [[first]] + [[]] == [[first], []]
      && [[first], []] + [[third]] == [[first], [], [third]];
    FirstPageEver(first, third);
    PendingIsNotFiled(sources, month, stem, id);
    forall moves | MovesOf([third], moves) ensures NoteLinks.Rewritten(body, moves) == body {
      MovesInPlace(third, moves);
      NothingMoves(body, moves);
    }
  }

  lemma MadeFresh(id: string, m: Manifest, to: string)
    ensures MadeFrom([], Planned(None, id, m, to))
  {
    var i := Planned(None, id, m, to);
    assert ItemOf([], id) == None;
    assert i == Planned(ItemOf([], i.id), i.id, m, i.to);
  }

  lemma MovesInPlace(i: Item, moves: seq<NoteLinks.Move>)
    requires Links(i) == {i.to} && MovesOf([i], moves)
    ensures forall m | m in moves :: m.from == m.to
  {
    hide OneOf;
    forall m | m in moves ensures m.from == m.to {
      MoveInPlace(i, m);
    }
  }

  lemma MoveInPlace(i: Item, m: NoteLinks.Move)
    requires Links(i) == {i.to} && OneOf([i], m)
    ensures m.from == m.to
  {
  }

  lemma FirstPageEver(first: Item, third: Item)
    requires first.id == third.id
    ensures first.from in Ever([[first], [], [third]], first.id)
  {
    var h: seq<seq<Item>> := [[first], [], [third]];
    assert h[..2] == [[first], []] && h[..2][..1] == [[first]];
    assert first.from in Ever([[first]], first.id);
    assert first.from in Ever([[first], []], first.id);
  }

  lemma PendingIsNotFiled(sources: string, month: string, stem: string, id: string)
    requires IsMonth(month)
    ensures PendingPath(sources, month, stem) != Nested(sources, month, id + ".md")
  {
    var k := |sources| + 1;
    assert PendingPath(sources, month, stem)[k] == '_' && Nested(sources, month, id + ".md")[k] == month[0];
  }

  /**
   An attempt interrupted after the manifest was written, before the old page was removed: the plan
   that takes it up still covers links to the old page, but moves no page, so it does not remove it.
   */
  lemma ResumedPlanKeepsTheOldPage(sources: string, id: string, month: string, later: string, pending: string,
                                   before: seq<string>, after: seq<string>)
    requires ValidId(id) && IsMonth(month) && IsMonth(later)
    ensures var to := FiledPath(sources, "", id, month);
      var first := Planned(None, id, Manifest(1, pending, ""), to);
      var resumed := Planned(Some(first), id, Manifest(1, to, to), FiledPath(sources, to, id, later));
      && pending in Links(resumed) && resumed.from == resumed.to
      && (OldPages(before, after, [resumed]) ==> after == before)
  {
    FiledPathIsStable(sources, "", id, month, later);
    var to := FiledPath(sources, "", id, month);
    var first := Planned(None, id, Manifest(1, pending, ""), to);
    var resumed := Planned(Some(first), id, Manifest(1, to, to), FiledPath(sources, to, id, later));
    hide OldPages;
    if OldPages(before, after, [resumed]) && after != before {
      OneRemoved(before, after, [resumed]);
    }
  }

  lemma OneRemoved(before: seq<string>, after: seq<string>, items: seq<Item>)
    requires OldPages(before, after, items) && after != before
    ensures exists i | i in items :: i.from != i.to
  {
    assert after[|before|] in after[|before|..];
  }

  method ListMoves(items: seq<Item>) returns (moves: seq<NoteLinks.Move>)
    ensures MovesOf(items, moves)
  {
    hide Links;
    moves := [];
    for k := 0 to |items|
      invariant MovesOf(items[..k], moves)
    {
      var i := items[k];
      assert items[..k + 1] == items[..k] + [i];
      ghost var before := moves;
      var todo := Links(i);
      while todo != {}
        invariant todo <= Links(i)
        invariant before <= moves && forall l | l in Links(i) - todo :: NoteLinks.Move(l, i.to) in moves
        invariant forall m | m in moves[|before|..] :: m.from in Links(i) && m.to == i.to
        decreases todo
      {
        var l :| l in todo;
        moves, todo := moves + [NoteLinks.Move(l, i.to)], todo - {l};
      }
      assert moves == before + moves[|before|..];
    }
    assert items[..|items|] == items;
  }

  // ----- Planning -----

  /** `yyyy-mm-dd` */
  predicate ValidDate(date: string) {
    |date| == 10 && IsMonth(date[..7]) && date[7] == '-' && IsDigit(date[8]) && IsDigit(date[9])
  }

  /** The note is reviewed, in the month and with the sources it was planned with. */
  predicate AsPlanned(note: Note, month: string, ids: set<string>) {
    note.reviewed && ValidDate(note.date) && note.date[..7] == month && note.sources == ids
  }

  function PreviousItems(journal: Option<Plan>): seq<Item> {
    if journal.None? then [] else journal.value.items
  }

  /** The entry of one source in a new plan. */
  ghost predicate PlannedFrom(sources: string, journal: Option<Plan>, manifests: map<string, Manifest>,
                              month: string, i: Item) {
    && i.id in manifests && ValidId(i.id) && IsMonth(month)
    && i == Planned(ItemOf(PreviousItems(journal), i.id), i.id, manifests[i.id],
      FiledPath(sources, manifests[i.id].filed, i.id, month))
  }

  lemma NextPlan(history: seq<seq<Item>>, items: seq<Item>)
    requires Follows(history) && OnePerSource(items) && forall i | i in items :: MadeFrom(Entries(history), i)
    ensures Follows(history + [items]) && Entries(history + [items]) == items
  {
    hide MadeFrom, OnePerSource;
    assert (history + [items])[..|history|] == history;
  }

  /** Where an item's page goes is where it stays. */
  ghost predicate Stays(sources: string, i: Item) {
    forall later: string | |later| >= 4 :: FiledPath(sources, i.to, i.id, later) == i.to
  }

  lemma PlannedMadeFrom(sources: string, journal: Option<Plan>, manifests: map<string, Manifest>, month: string,
                        i: Item)
    requires PlannedFrom(sources, journal, manifests, month, i)
    ensures MadeFrom(PreviousItems(journal), i) && i.id in manifests && manifests[i.id].projection == i.from
  {
  }

  lemma NewPlanOk(sources: string, journal: Option<Plan>, planned: map<string, Manifest>,
                  manifests: map<string, Manifest>, history: seq<seq<Item>>, month: string, plan: Plan)
    requires JournalOk(journal, manifests, history) && OnePerSource(plan.items) && planned.Keys == manifests.Keys
    requires forall i | i in plan.items :: PlannedFrom(sources, journal, planned, month, i)
    ensures JournalOk(Some(plan), manifests, history + [plan.items])
  {
    hide PlannedFrom, MadeFrom, OnePerSource;
    assert Entries(history) == PreviousItems(journal);
    forall i | i in plan.items ensures MadeFrom(Entries(history), i) && i.id in planned {
      PlannedMadeFrom(sources, journal, planned, month, i);
    }
    assert forall i | i in plan.items :: i.id in planned.Keys;
    NextPlan(history, plan.items);
  }

  lemma KnownManifest(sources: string, journal: Option<Plan>, manifests: map<string, Manifest>, month: string, i: Item)
    requires PlannedFrom(sources, journal, manifests, month, i)
    ensures i.id in manifests && i.from == manifests[i.id].projection && i.revision == manifests[i.id].current
    ensures Stays(sources, i)
  {
    forall later: string | |later| >= 4 ensures FiledPath(sources, i.to, i.id, later) == i.to {
      FiledPathIsStable(sources, manifests[i.id].filed, i.id, month, later);
    }
  }

  /** A completed plan that still fits the note, its folder and its sources. */
  predicate UpToDate(sources: string, journal: Option<Plan>, manifests: map<string, Manifest>, note: Note,
                     folder: string, month: string)
    requires |month| >= 4
  {
    && journal.Some? && journal.value.complete && journal.value.folder == folder
    && InFolder(note.path, folder)
    && note.sources == (set i | i in journal.value.items :: i.id)
    && forall i | i in journal.value.items ::
         && i.id in manifests && i.revision == manifests[i.id].current
         && i.to == manifests[i.id].projection == FiledPath(sources, manifests[i.id].filed, i.id, month)
  }

  /**
   After a completed filing, while the note and its sources stay as they are, the next one finds
   nothing to do, whatever month the note's date is in.
   */
  lemma CompletedIsUpToDate(sources: string, journal: Option<Plan>, manifests: map<string, Manifest>, note: Note,
                            month: string)
    requires |month| >= 4 && journal.Some? && journal.value.complete && InFolder(note.path, journal.value.folder)
    requires note.sources == set i | i in journal.value.items :: i.id
    requires forall i | i in journal.value.items :: Settled(manifests, i) && manifests[i.id].current == i.revision
    requires forall i | i in journal.value.items :: Stays(sources, i)
    ensures UpToDate(sources, journal, manifests, note, journal.value.folder, month)
  {
    hide FiledPath;
    forall i | i in journal.value.items ensures FiledPath(sources, manifests[i.id].filed, i.id, month) == i.to {
      assert Settled(manifests, i) && Stays(sources, i);
    }
  }

  /** The page of a source is where its entry wanted it. */
  predicate Settled(manifests: map<string, Manifest>, i: Item) {
    i.id in manifests && manifests[i.id].projection == i.to && manifests[i.id].filed == i.to
  }

  /** The review covers the current revision of every source of a note. */
  predicate Approves(review: Review, note: Note, manifests: map<string, Manifest>) {
    && review.reviewed
    && forall id | id in note.sources ::
         id in manifests && id in review.sources && review.sources[id] == Some(manifests[id].current)
  }

  function ApprovedIn(items: seq<Item>, id: string): nat {
    match ItemOf(items, id)
    case None => 0
    case Some(i) => i.revision
  }

  // ----- Filing one note -----

  function DeskOf(files: map<string, File>, manifest: Manifest, i: Item, seen: Option<File>,
                  stage: FilingPages.Stage): FilingPages.Desk {
    FilingPages.Desk(files, manifest, i.from, i.to, seen, stage)
  }

  /** The page can be read, shows the planned revision, and nothing else is at its new place. */
  predicate MayFile(sources: string, files: map<string, File>, manifests: map<string, Manifest>, i: Item) {
    && i.id in manifests && manifests[i.id].current == i.revision
    && FilingPages.Enabled(sources, i.id, DeskOf(files, manifests[i.id], i, None, FilingPages.Planned),
                           FilingPages.Place)
  }

  /** No page is in the way of another one's. */
  ghost predicate OutOfTheWay(items: seq<Item>) {
    forall j, k | 0 <= j < |items| && 0 <= k < |items| && j != k ::
      items[j].from != items[k].from && items[j].to != items[k].from && items[j].to != items[k].to
  }

  predicate SameAt(a: map<string, File>, b: map<string, File>, p: string) {
    (p in a <==> p in b) && (p in a ==> a[p] == b[p])
  }

  /** Nothing but the two places of an item, and its manifest, may differ. */
  ghost predicate OnlyFiled(files: map<string, File>, manifests: map<string, Manifest>, later: map<string, File>,
                            named: map<string, Manifest>, i: Item) {
    && (forall p | p != i.from && p != i.to :: SameAt(files, later, p))
    && forall id | id != i.id :: (id in manifests <==> id in named) && (id in manifests ==> manifests[id] == named[id])
  }

  /** Every plan that could be made can be carried out. */
  ghost predicate PlansMayFile(sources: string, files: map<string, File>, journal: Option<Plan>,
                               manifests: map<string, Manifest>, ids: set<string>, month: string) {
    forall items: seq<Item> | PlanFor(sources, journal, manifests, ids, month, items) ::
      AllMayFile(sources, files, manifests, items)
  }

  ghost predicate PlanFor(sources: string, journal: Option<Plan>, manifests: map<string, Manifest>, ids: set<string>,
                          month: string, items: seq<Item>) {
    && OnePerSource(items) && ids == (set i | i in items :: i.id)
    && forall i | i in items :: PlannedFrom(sources, journal, manifests, month, i)
  }

  lemma FiledOnly(files: map<string, File>, manifests: map<string, Manifest>, placed: map<string, File>,
                  later: map<string, File>, named: map<string, Manifest>, i: Item)
    requires forall p | p != i.to :: SameAt(files, placed, p)
    requires forall p | p != i.from && p != i.to :: SameAt(placed, later, p)
    requires named == manifests
      || (i.id in manifests && named == manifests[i.id := Manifest(manifests[i.id].current, i.to, i.to)])
    ensures OnlyFiled(files, manifests, later, named, i)
  {
    forall p | p != i.from && p != i.to ensures SameAt(files, later, p) {
      assert SameAt(files, placed, p) && SameAt(placed, later, p);
    }
  }

  ghost predicate AllMayFile(sources: string, files: map<string, File>, manifests: map<string, Manifest>,
                             items: seq<Item>) {
    OutOfTheWay(items) && forall i | i in items :: MayFile(sources, files, manifests, i)
  }

  lemma OthersMayFile(sources: string, files: map<string, File>, manifests: map<string, Manifest>,
                      later: map<string, File>, named: map<string, Manifest>, items: seq<Item>, k: nat)
    requires OnePerSource(items) && OutOfTheWay(items) && k < |items|
    requires OnlyFiled(files, manifests, later, named, items[k])
    ensures forall j | k < j < |items| && MayFile(sources, files, manifests, items[j]) ::
      MayFile(sources, later, named, items[j])
  {
    hide MayFile, OnlyFiled;
    forall j | k < j < |items| && MayFile(sources, files, manifests, items[j])
      ensures MayFile(sources, later, named, items[j])
    {
      MayStillFile(sources, files, manifests, later, named, items, k, j);
    }
  }

  lemma CannotFile(sources: string, files: map<string, File>, manifests: map<string, Manifest>, i: Item)
    requires i.id in manifests && manifests[i.id].current != i.revision
    ensures !MayFile(sources, files, manifests, i)
  {
  }

  lemma MayStillFile(sources: string, files: map<string, File>, manifests: map<string, Manifest>,
                     later: map<string, File>, named: map<string, Manifest>, items: seq<Item>, j: nat, k: nat)
    requires OnePerSource(items) && OutOfTheWay(items) && j < |items| && k < |items| && j != k
    requires OnlyFiled(files, manifests, later, named, items[j]) && MayFile(sources, files, manifests, items[k])
    ensures MayFile(sources, later, named, items[k])
  {
    assert items[j].id != items[k].id;
    assert SameAt(files, later, items[k].from) && SameAt(files, later, items[k].to);
  }

  /**
   Sources may gain revisions meanwhile, and the filing of another note that cites one too may move
   its page, under the month of that note.
   */
  ghost predicate OthersFiled(sources: string, before: map<string, Manifest>, after: map<string, Manifest>) {
    before.Keys == after.Keys && forall id | id in before :: MovedOrNot(sources, id, before[id], after[id])
  }

  ghost predicate MovedOrNot(sources: string, id: string, before: Manifest, after: Manifest) {
    || (before.projection == after.projection && before.filed == after.filed)
    || exists month :: MovedUnder(sources, id, before, after, month)
  }

  predicate MovedUnder(sources: string, id: string, before: Manifest, after: Manifest, month: string) {
    IsMonth(month) && after.filed == FiledPath(sources, before.filed, id, month) && after.projection == after.filed
  }

  datatype Outcome = NotReviewed | NeedsReview | Refused | Interrupted | Idle | Filed | Advanced

  class NoteFiling {
    const sources: string
    const folderOf: string -> string
    var files: map<string, File>
    var manifests: map<string, Manifest>
    var reviews: Option<Review>
    var journal: Option<Plan>
    var note: Note
    /**
     Every version the note ever had, which of them the filing wrote itself, and how many there were,
     less one, when the plan was written.
     */
    ghost var past: seq<Note>
    ghost var ours: set<nat>
    ghost var since: nat
    /** Every plan ever written, and every page ever removed as an old one. */
    ghost var history: seq<seq<Item>>
    ghost var removed: seq<string>
    /** How often somebody else changed something. */
    ghost var visits: nat

    ghost predicate Valid()
      reads this
    {
      && past != [] && past[|past| - 1] == note && since < |past| && (forall k | k in ours :: k < |past|)
      && ManifestsNamePages(files, manifests)
      && JournalOk(journal, manifests, history)
      && CompletionOk(journal, past, since, ours)
    }

    constructor (sources: string, folderOf: string -> string, files: map<string, File>,
                 manifests: map<string, Manifest>, note: Note)
      requires ManifestsNamePages(files, manifests)
      ensures Valid() && journal == None && this.note == note
    {
      this.sources, this.folderOf, this.files, this.manifests, this.note := sources, folderOf, files, manifests, note;
      visits := 0;
      reviews, journal, past, ours, since, history, removed := None, None, [note], {}, 0, [], [];
    }

    /** After every call: exactly the page paths of the plans a source was in without a break are covered. */
    lemma JournalCovers()
      requires Valid() && journal.Some?
      ensures forall i | i in journal.value.items :: Links(i) + {i.to} == Unbroken(history, i.id)
    {
      forall i | i in journal.value.items ensures Links(i) + {i.to} == Unbroken(history, i.id) {
        CoverageIsExact(history, i);
      }
    }

    /** Anything the devices may do between two steps. */
    method Devices()
      requires Valid()
      modifies `files, `note, `past, `visits
      ensures Valid() && old(past) <= past && PagesStay(old(files), files) && old(visits) <= visits
      ensures visits == old(visits) ==> files == old(files) && note == old(note) && past == old(past)
    {
      hide CompletionOk, Relinked;
      var f: map<string, File> := *;
      if f != files && PagesStay(files, f) {
        files, visits := f, visits + 1;
      }
      var n: Note := *;
      if n != note {
        LaterPast(journal, past, since, ours, n, ours);
        note, past, visits := n, past + [n], visits + 1;
      }
    }

    /** Anything the devices, the intake of sources and the filing of other notes may do between two steps. */
    method World()
      requires Valid()
      modifies `files, `note, `past, `manifests, `visits
      ensures Valid() && old(past) <= past && OthersFiled(sources, old(manifests), manifests) && old(visits) <= visits
      ensures visits == old(visits) ==>
        files == old(files) && note == old(note) && past == old(past) && manifests == old(manifests)
    {
      hide CompletionOk, Relinked, FiledPath, JournalOk, PagesStay, IsMonth;
      Devices();
      var f: map<string, File>, m: map<string, Manifest>, months: map<string, string> := *, *, *;
      if m.Keys == manifests.Keys && ManifestsNamePages(f, m) && forall id | id in manifests ::
           || (m[id].projection == manifests[id].projection && m[id].filed == manifests[id].filed)
           || (id in months && MovedUnder(sources, id, manifests[id], m[id], months[id]))
      {
        forall id | id in manifests ensures MovedOrNot(sources, id, manifests[id], m[id]) {
          assert id in months && MovedUnder(sources, id, manifests[id], m[id], months[id]) ==>
            MovedOrNot(sources, id, manifests[id], m[id]);
        }
        SameSources(journal, manifests, m, history);
        files, manifests, visits := f, m, visits + 1;
      }
    }

    /** The reviewed page at its new place: nothing else that is there is ever replaced. */
    method WritePage(item: Item, original: File, power: nat) returns (outcome: Outcome, left: nat)
      requires Valid() && original.Page? && original.source == item.id
      requires item.from == item.to ==> item.to in files && files[item.to] == original
      modifies `files
      ensures Valid() && left <= power <= left + 1 && outcome in {Refused, Interrupted, Advanced}
      ensures outcome == Interrupted ==> left == 0
      ensures outcome == Refused <==>
        item.from != item.to && item.to in old(files) && old(files)[item.to] != original.(reviewed := true)
      ensures outcome == Advanced ==> files == old(files)[item.to := original.(reviewed := true)]
      ensures outcome != Advanced ==> files == old(files)
      ensures item.from != item.to && item.to in old(files) ==> files == old(files)
    {
      hide CompletionOk, Relinked, JournalOk;
      left := power;
      var data := original.(reviewed := true);
      if item.from == item.to {
        if original == data {
          return Advanced, left;
        }
      } else if item.to in files {
        return if files[item.to] == data then Advanced else Refused, left;
      }
      if left == 0 {
        return Interrupted, left;
      }
      files, left := files[item.to := data], left - 1;
      return Advanced, left;
    }

    /** The source's page, at its old place or else at its new one, if it shows the planned revision. */
    method ReadPage(item: Item) returns (page: Option<File>)
      ensures page == ReadFrom(files, item.id, item.revision, item.from, item.to)
    {
      var current := if item.from in files then item.from else item.to;
      if current !in files {
        return None;
      }
      var original := files[current];
      if !original.Page? || original.source != item.id || original.revision != item.revision || !original.managed {
        return None;
      }
      return Some(original);
    }

    /** One page as the machine of its filing sees it. */
    function Desk(item: Item, seen: Option<File>, stage: FilingPages.Stage): FilingPages.Desk
      requires item.id in manifests
      reads this
    {
      DeskOf(files, manifests[item.id], item, seen, stage)
    }

    /**
     Move one source page, as a run of the machine of its filing: the new page first, then the
     manifest, the old page last. However far it gets, the manifest names a page of its source.
     Undisturbed it is refused only where the page cannot be filed.
     */
    method FilePage(item: Item, power: nat) returns (outcome: Outcome, left: nat, ghost moves: seq<FilingPages.Move>)
      requires Valid() && journal.Some? && item in journal.value.items && item.id in manifests
      modifies `files, `note, `past, `manifests, `removed, `visits
      ensures Valid() && old(past) <= past && old(visits) <= visits
      ensures outcome in {Refused, Interrupted, Advanced} && left <= power <= left + 3
      ensures outcome == Interrupted ==> left == 0
      ensures manifests.Keys == old(manifests).Keys
      ensures old(manifests)[item.id].current == item.revision ==> exists seen ::
        FilingPages.RunTo(sources, item.id, old(Desk(item, None, FilingPages.Planned)), moves)
          == Some(Desk(item, seen, FilingPages.Resting))
      ensures outcome == Advanced <==> FilingPages.Clear in moves
      ensures outcome == Refused && visits == old(visits) ==> !MayFile(sources, old(files), old(manifests), item)
      ensures visits == old(visits) ==>
        OnlyFiled(old(files), old(manifests), files, manifests, item) && note == old(note) && past == old(past)
      ensures manifests == old(manifests) || manifests ==
        old(manifests)[item.id := Manifest(old(manifests)[item.id].current, item.to, item.to)]
      ensures removed == old(removed) || (item.from != item.to && removed == old(removed) + [item.from])
      ensures outcome == Advanced ==>
        && old(manifests)[item.id].current == item.revision
        && manifests == old(manifests)[item.id := Manifest(item.revision, item.to, item.to)]
        && PageOf(files, item.to, item.id)
        && (item.from != item.to ==> item.from !in files)
    {
      hide CompletionOk, Relinked, JournalOk, ManifestsNamePages, MayFile, FilingPages.RunTo, FilingPages.Enabled,
        FilingPages.After;
      left, moves := power, [];
      if manifests[item.id].current != item.revision {
        CannotFile(sources, files, manifests, item);
        return Refused, left, moves;
      }
      ghost var start := Desk(item, None, FilingPages.Planned);
      var page;
      outcome, left, page, moves := PlacePage(item, left);
      if outcome != Advanced {
        return;
      }
      ghost var placed := files;
      outcome, left, moves := RecordPage(item, page, left, start, moves);
      if outcome == Advanced {
        outcome, left, moves := RemoveOld(item, page, left, start, moves);
      }
      if visits == old(visits) {
        assert forall p | p != item.from && p != item.to :: SameAt(placed, files, p);
        FiledOnly(old(files), old(manifests), placed, files, manifests, item);
      }
    }

    /** The reviewed page at its new place, if it can be filed. */
    method PlacePage(item: Item, power: nat)
      returns (outcome: Outcome, left: nat, page: File, ghost moves: seq<FilingPages.Move>)
      requires Valid() && item.id in manifests && manifests[item.id].current == item.revision
      modifies `files
      ensures Valid() && outcome in {Refused, Interrupted, Advanced} && left <= power <= left + 1
      ensures outcome == Interrupted ==> left == 0
      ensures outcome == Refused <==> !MayFile(sources, old(files), manifests, item)
      ensures FilingPages.Clear !in moves
      ensures outcome == Advanced ==>
        && page.Page? && page.source == item.id && PageOf(files, item.to, item.id)
        && (item.from != item.to && item.from in files ==> files[item.from] == page)
        && (forall p | p != item.to :: SameAt(old(files), files, p))
        && FilingPages.RunTo(sources, item.id, old(Desk(item, None, FilingPages.Planned)), moves)
          == Some(Desk(item, Some(page), FilingPages.Placed))
      ensures outcome != Advanced ==>
        && files == old(files)
        && FilingPages.RunTo(sources, item.id, old(Desk(item, None, FilingPages.Planned)), moves)
          == Some(Desk(item, None, FilingPages.Resting))
    {
      hide CompletionOk, Relinked, JournalOk, FilingPages.RunTo;
      left, moves, page := power, [], Other("");
      ghost var start := Desk(item, None, FilingPages.Planned);
      FilingPages.NoMoves(sources, item.id, start);
      var read := ReadPage(item);
      if read.None? {
        moves := Stopped(item, start, moves, None, FilingPages.Planned);
        return Refused, left, page, moves;
      }
      page := read.value;
      outcome, left := WritePage(item, page, left);
      if outcome != Advanced {
        moves := Stopped(item, start, moves, None, FilingPages.Planned);
        return;
      }
      FilingPages.PlaceRuns(sources, item.id, start, [], start);
      moves := [] + [FilingPages.Place];
    }

    /** The attempt ends where it is. */
    ghost method Stopped(item: Item, start: FilingPages.Desk, moves: seq<FilingPages.Move>, seen: Option<File>,
                         stage: FilingPages.Stage) returns (later: seq<FilingPages.Move>)
      requires item.id in manifests && stage != FilingPages.Resting
      requires FilingPages.RunTo(sources, item.id, start, moves) == Some(Desk(item, seen, stage))
      ensures later == moves + [FilingPages.Stop]
      ensures FilingPages.RunTo(sources, item.id, start, later) == Some(Desk(item, seen, FilingPages.Resting))
    {
      later := moves + [FilingPages.Stop];
      hide FilingPages.RunTo, FilingPages.Enabled, FilingPages.After;
      FilingPages.StopRuns(sources, item.id, start, moves, Desk(item, seen, stage));
    }

    /** Devices at work during the filing of a page. */
    method WhileFiling(item: Item, ghost start: FilingPages.Desk, ghost moves: seq<FilingPages.Move>,
                       ghost seen: Option<File>, ghost stage: FilingPages.Stage)
      returns (ghost later: seq<FilingPages.Move>)
      requires Valid() && item.id in manifests
      requires FilingPages.RunTo(sources, item.id, start, moves) == Some(Desk(item, seen, stage))
      modifies `files, `note, `past, `visits
      ensures Valid() && old(past) <= past && PagesStay(old(files), files) && old(visits) <= visits
      ensures visits == old(visits) ==> files == old(files) && note == old(note) && past == old(past)
      ensures later == moves + [FilingPages.Device(files)]
      ensures FilingPages.RunTo(sources, item.id, start, later) == Some(Desk(item, seen, stage))
    {
      hide CompletionOk, Relinked, JournalOk, ManifestsNamePages, FilingPages.RunTo, FilingPages.Enabled,
        FilingPages.After;
      Devices();
      later := moves + [FilingPages.Device(files)];
      FilingPages.DeviceRuns(sources, item.id, start, moves, old(Desk(item, seen, stage)), files);
    }

    /** The manifest follows the page. */
    method RecordPage(item: Item, page: File, power: nat, ghost start: FilingPages.Desk,
                      ghost moves: seq<FilingPages.Move>)
      returns (outcome: Outcome, left: nat, ghost later: seq<FilingPages.Move>)
      requires Valid() && journal.Some? && item in journal.value.items && item.id in manifests
        && PageOf(files, item.to, item.id)
      requires FilingPages.RunTo(sources, item.id, start, moves) == Some(Desk(item, Some(page), FilingPages.Placed))
      requires FilingPages.Clear !in moves
      modifies `files, `note, `past, `manifests, `visits
      ensures Valid() && old(past) <= past && old(visits) <= visits
      ensures left <= power <= left + 1 && outcome in {Interrupted, Advanced} && (outcome == Interrupted ==> left == 0)
      ensures PageOf(files, item.to, item.id)
      ensures visits == old(visits) ==> files == old(files) && note == old(note) && past == old(past)
      ensures manifests == if outcome == Advanced
        then old(manifests)[item.id := Manifest(old(manifests)[item.id].current, item.to, item.to)] else old(manifests)
      ensures FilingPages.Clear !in later
      ensures FilingPages.RunTo(sources, item.id, start, later) ==
        Some(Desk(item, Some(page), if outcome == Advanced then FilingPages.Named else FilingPages.Resting))
    {
      hide CompletionOk, Relinked, JournalOk, ManifestsNamePages, FilingPages.RunTo, FilingPages.Enabled,
        FilingPages.After;
      left := power;
      later := WhileFiling(item, start, moves, Some(page), FilingPages.Placed);
      assert PageOf(files, item.to, item.id);
      if left == 0 {
        later := Stopped(item, start, later, Some(page), FilingPages.Placed);
        return Interrupted, left, later;
      }
      var manifest := Manifest(manifests[item.id].current, item.to, item.to);
      Recorded(journal, manifests, history, item, manifest);
      NamesPage(files, manifests, item.id, manifest);
      FilingPages.NameRuns(sources, item.id, start, later, Desk(item, Some(page), FilingPages.Placed));
      manifests, left, later := manifests[item.id := manifest], left - 1, later + [FilingPages.Name];
      later := WhileFiling(item, start, later, Some(page), FilingPages.Named);
      return Advanced, left, later;
    }

    /** The old page goes last, and only while nobody changed it. */
    method RemoveOld(item: Item, original: File, power: nat, ghost start: FilingPages.Desk,
                     ghost moves: seq<FilingPages.Move>)
      returns (outcome: Outcome, left: nat, ghost later: seq<FilingPages.Move>)
      requires Valid() && original.Page? && original.source == item.id
      requires item.id in manifests && manifests[item.id].projection == item.to
      requires FilingPages.RunTo(sources, item.id, start, moves) == Some(Desk(item, Some(original), FilingPages.Named))
      requires FilingPages.Clear !in moves
      modifies `files, `removed
      ensures Valid() && left <= power <= left + 1 && outcome in {Refused, Interrupted, Advanced}
      ensures outcome == Interrupted ==> left == 0
      ensures outcome == Refused ==>
        item.from != item.to && item.from in old(files) && old(files)[item.from] != original
      ensures (files == old(files) && removed == old(removed))
        || (item.from != item.to && files == old(files) - {item.from} && removed == old(removed) + [item.from])
      ensures outcome == Advanced && item.from != item.to ==> item.from !in files
      ensures outcome == Advanced <==> FilingPages.Clear in later
      ensures FilingPages.RunTo(sources, item.id, start, later) == Some(Desk(item, Some(original), FilingPages.Resting))
    {
      hide CompletionOk, Relinked, JournalOk, FilingPages.RunTo, FilingPages.Enabled, FilingPages.After;
      left := power;
      ghost var before := Desk(item, Some(original), FilingPages.Named);
      if item.from != item.to && item.from in files {
        if files[item.from] != original {
          later := Stopped(item, start, moves, Some(original), FilingPages.Named);
          return Refused, left, later;
        }
        if left == 0 {
          later := Stopped(item, start, moves, Some(original), FilingPages.Named);
          return Interrupted, left, later;
        }
        files, removed, left := files - {item.from}, removed + [item.from], left - 1;
      }
      assert item.from != item.to ==> files == before.files - {item.from};
      FilingPages.ClearRuns(sources, item.id, start, moves, before);
      return Advanced, left, moves + [FilingPages.Clear];
    }

    /** The entries of a new plan, from the manifests as they are. */
    method PlanItems(ids: set<string>, month: string) returns (items: Option<seq<Item>>)
      requires Valid() && IsMonth(month)
      ensures items.Some? ==>
        PlanFor(sources, journal, manifests, ids, month, items.value)
      ensures items.None? ==> exists id | id in ids :: id !in manifests || !ValidId(id)
    {
      hide CompletionOk, JournalOk, FiledPath, Planned, ManifestsNamePages;
      var todo, done: seq<Item> := ids, [];
      while todo != {}
        invariant todo <= ids && OnePerSource(done) && ids - todo == (set i | i in done :: i.id)
        invariant forall i | i in done :: PlannedFrom(sources, journal, manifests, month, i)
        decreases todo
      {
        var id :| id in todo;
        if id !in manifests || !ValidId(id) {
          return None;
        }
        var m := manifests[id];
        var i := Planned(ItemOf(PreviousItems(journal), id), id, m, FiledPath(sources, m.filed, id, month));
        PlannedId(ItemOf(PreviousItems(journal), id), id, m, FiledPath(sources, m.filed, id, month));
        AddItem(done, i);
        done, todo := done + [i], todo - {id};
      }
      return Some(done);
    }

    /** Write the journal. */
    method SavePlan(plan: Plan, ghost month: string, ghost planned: map<string, Manifest>)
      requires Valid() && OnePerSource(plan.items) && !plan.complete && planned.Keys == manifests.Keys
      requires forall i | i in plan.items :: PlannedFrom(sources, journal, planned, month, i)
      modifies `journal, `history, `since
      ensures Valid() && journal == Some(plan) && history == old(history) + [plan.items] && since == |past| - 1
    {
      hide JournalOk, PlannedFrom, Relinked, ManifestsNamePages;
      NewPlanOk(sources, journal, planned, manifests, history, month, plan);
      journal, history, since := Some(plan), history + [plan.items], |past| - 1;
    }

    /** Rewrite a journal whose entries stay as they are. */
    method SaveJournal(plan: Plan)
      requires Valid() && journal.Some? && plan.items == journal.value.items
        && CompletionOk(Some(plan), past, since, ours)
      modifies `journal
      ensures Valid() && journal == Some(plan)
    {
      hide CompletionOk, Relinked, ManifestsNamePages, Follows;
      journal := Some(plan);
    }

    /** Keep a copy of the note as it is about to be moved, if it still is as it was seen. */
    method Remember(seen: Note, power: nat) returns (outcome: Outcome, left: nat)
      requires Valid() && journal.Some? && !journal.value.complete
      modifies `journal
      ensures Valid() && left <= power <= left + 1 && journal.Some?
        && journal.value == old(journal).value.(copies := journal.value.copies)
      ensures outcome in {Refused, Interrupted, Advanced} && (outcome == Interrupted ==> left == 0)
      ensures outcome == Refused <==> !SameContent(note, seen)
      ensures outcome == Advanced ==> SameContent(note, seen) && seen in journal.value.copies
    {
      hide Relinked;
      left := power;
      if !SameContent(note, seen) {
        return Refused, left;
      }
      if left == 0 {
        return Interrupted, left;
      }
      var copies := journal.value.copies;
      if copies == [] || copies[|copies| - 1] != seen {
        copies := copies + [seen];
      }
      SaveJournal(journal.value.(copies := copies));
      return Advanced, left - 1;
    }

    /** File every source of the plan. Undisturbed it is refused only where some page cannot be filed. */
    method FilePages(items: seq<Item>, power: nat) returns (outcome: Outcome, left: nat)
      requires Valid() && journal.Some? && journal.value.items == items && OnePerSource(items)
      requires forall i | i in items :: Stays(sources, i)
      modifies `files, `note, `past, `manifests, `removed, `visits
      ensures Valid() && old(past) <= past && old(visits) <= visits
      ensures outcome in {Refused, Interrupted, Advanced} && left <= power <= left + 3 * |items|
      ensures outcome == Interrupted ==> left == 0
      ensures outcome == Refused && visits == old(visits) ==>
        !AllMayFile(sources, old(files), old(manifests), items)
      ensures visits == old(visits) ==> note == old(note) && past == old(past)
      ensures OldPages(old(removed), removed, items)
      ensures outcome == Advanced ==> forall i | i in items :: Settled(manifests, i)
    {
      hide CompletionOk, JournalOk, Relinked, ManifestsNamePages, MayFile, OnlyFiled, OutOfTheWay, FilingPages.RunTo,
        Settled, Stays, PageOf;
      left := power;
      for k := 0 to |items|
        invariant Valid() && old(past) <= past && left <= power <= left + 3 * k && old(visits) <= visits
        invariant visits == old(visits) ==> note == old(note) && past == old(past)
        invariant OldPages(old(removed), removed, items)
        invariant forall i | i in items[..k] :: Settled(manifests, i)
        invariant visits == old(visits) && AllMayFile(sources, old(files), old(manifests), items) ==>
          forall j | k <= j < |items| :: MayFile(sources, files, manifests, items[j])
      {
        ghost var settled := manifests;
        World();
        SettledLater(sources, settled, manifests, items[..k]);
        ghost var before, known, there := removed, manifests, files;
        JournalHas(journal, manifests, history, items[k]);
        ghost var moves;
        outcome, left, moves := FilePage(items[k], left);
        SettledToo(known, manifests, items, k, outcome == Advanced);
        OneMoreRemoved(old(removed), before, removed, items, items[k]);
        if outcome != Advanced {
          return;
        }
        if OutOfTheWay(items) && OnlyFiled(there, known, files, manifests, items[k]) {
          OthersMayFile(sources, there, known, files, manifests, items, k);
        }
      }
      assert items[..|items|] == items;
      outcome := Advanced;
    }

    /** Let the note link to the filed pages, if it still is as it was shown. */
    method Relink(items: seq<Item>, shown: Note, power: nat) returns (outcome: Outcome, seen: Note, left: nat)
      requires Valid() && SeenSince(past, since, shown)
      modifies `files, `note, `past, `ours, `visits
      ensures Valid() && old(past) <= past && OursLater(old(past), old(ours), ours) && old(visits) <= visits
      ensures left <= power <= left + 1 && outcome in {Refused, Interrupted, Advanced}
      ensures outcome == Interrupted ==> left == 0
      ensures visits == old(visits) && old(note) == shown ==>
        outcome != Refused && (outcome == Advanced ==> seen == note && seen.path == shown.path)
      ensures outcome == Advanced ==> SeenSince(past, since, seen) && Relinked(seen.body, items)
      ensures outcome == Advanced ==>
        CameOf(shown.body, seen.body, items) && SameContent(seen, shown.(body := seen.body))
    {
      hide CompletionOk, JournalOk, Relinked, ManifestsNamePages, CameOf, MovesOf, NoteLinks.Rewritten, PagesStay;
      seen, left := shown, power;
      var moves := ListMoves(items);
      var body := NoteLinks.Rewrite(seen.body, moves);
      RewritingRelinks(seen.body, items, moves);
      if body == seen.body {
        return Advanced, seen, left;
      }
      Devices();
      if !SameContent(note, seen) {
        return Refused, seen, left;
      }
      if left == 0 {
        return Interrupted, seen, left;
      }
      WriteNote(note.(body := body));
      return Advanced, note, left - 1;
    }

    /** Move the note last, once a copy of it is kept. */
    method MoveNote(folder: string, name: string, shown: Note, power: nat)
      returns (outcome: Outcome, seen: Note, left: nat)
      requires Valid() && journal.Some? && !journal.value.complete && SeenSince(past, since, shown)
      modifies `files, `note, `past, `ours, `journal, `visits
      ensures Valid() && old(past) <= past && OursLater(old(past), old(ours), ours) && old(visits) <= visits
      ensures left <= power <= left + 2 && outcome in {Refused, Interrupted, Advanced}
      ensures outcome == Interrupted ==> left == 0
      ensures visits == old(visits) && old(note) == shown ==> outcome != Refused
      ensures outcome == Advanced ==> seen.path == PlaceOf(shown.path, folder, name)
      ensures journal.Some? && journal.value == old(journal).value.(copies := journal.value.copies)
      ensures outcome == Advanced ==>
        SeenSince(past, since, seen) && SameContent(seen, shown) && InFolder(seen.path, folder)
      ensures outcome == Advanced ==> exists c | c in journal.value.copies :: SameContent(c, seen)
    {
      hide CompletionOk, JournalOk, ManifestsNamePages;
      seen, left := shown, power;
      Devices();
      outcome, left := Remember(seen, left);
      if outcome != Advanced || InFolder(seen.path, folder) {
        return;
      }
      Devices();
      if !SameContent(note, seen) {
        return Refused, seen, left;
      }
      if left == 0 {
        return Interrupted, seen, left;
      }
      WriteNote(note.(path := folder + "/" + name));
      assert SameContent(shown, note);
      return Advanced, note, left - 1;
    }

    method WriteNote(n: Note)
      requires Valid()
      modifies `note, `past, `ours
      ensures Valid() && note == n && past == old(past) + [n] && ours == old(ours) + {|old(past)|}
    {
      hide CompletionOk, JournalOk, Relinked, ManifestsNamePages;
      LaterPast(journal, past, since, ours, n, ours + {|past|});
      note, past, ours := n, past + [n], ours + {|past|};
    }

    /** The revisions a review approved; without one on record, the ones the journal or the manifests name. */
    method ApprovedRevisions(seen: Note, power: nat) returns (outcome: Outcome, left: nat)
      requires Valid() && forall id | id in seen.sources :: id in manifests
      modifies `reviews
      ensures Valid() && left <= power <= left + 1 && outcome in {NeedsReview, Interrupted, Advanced}
      ensures old(reviews).Some? ==> reviews == old(reviews) && left == power
      ensures old(reviews).None? && outcome != Interrupted ==>
        && reviews.Some? && reviews.value.reviewed
        && (journal.None? ==> reviews.value.sources == map id | id in seen.sources :: Some(manifests[id].current))
        && (journal.Some? ==>
              && reviews.value.sources.Keys == (set i | i in journal.value.items :: i.id)
              && forall i | i in journal.value.items :: reviews.value.sources[i.id] == Some(i.revision))
      ensures outcome == Advanced <==> reviews.Some? && Approves(reviews.value, seen, manifests)
      ensures outcome == Interrupted ==> reviews.None? && left == 0
    {
      hide JournalOk, CompletionOk, ManifestsNamePages, Relinked;
      left := power;
      if reviews.None? {
        if left == 0 {
          return Interrupted, left;
        }
        var ids := if journal.Some? then set i | i in journal.value.items :: i.id else seen.sources;
        var approved := map id | id in ids ::
          Some(if journal.Some? then ApprovedIn(journal.value.items, id) else manifests[id].current);
        JournalApproves(journal, manifests, history);
        reviews, left := Some(Review(true, approved)), left - 1;
      }
      if !reviews.value.reviewed || exists id | id in seen.sources ::
           id !in reviews.value.sources || reviews.value.sources[id] != Some(manifests[id].current) {
        return NeedsReview, left;
      }
      return Advanced, left;
    }

    predicate UpToDateNow()
      reads this
    {
      && note.reviewed && ValidDate(note.date)
      && (forall id | id in note.sources :: ValidId(id))
      && UpToDate(sources, journal, manifests, note, folderOf(note.date), note.date[..7])
    }

    /** The note is filed, nothing about it changed, and its review stands. */
    predicate InPlace()
      reads this
    {
      && UpToDateNow()
      && reviews.Some? && Approves(reviews.value, note, manifests)
    }

    /** Write the plan, with a copy of the note as it was shown; whatever happens before it is on disk. */
    method StartPlan(items: seq<Item>, month: string, folder: string, shown: Note, power: nat)
      returns (outcome: Outcome, left: nat)
      requires Valid() && OnePerSource(items)
      requires forall i | i in items :: PlannedFrom(sources, journal, manifests, month, i)
      modifies `files, `note, `past, `manifests, `journal, `history, `since, `visits
      ensures Valid() && old(past) <= past && old(history) <= history && old(visits) <= visits
      ensures left <= power <= left + 1 && outcome in {Refused, Interrupted, Advanced}
      ensures outcome == Interrupted ==> left == 0
      ensures visits == old(visits) ==>
        && files == old(files) && note == old(note) && past == old(past) && manifests == old(manifests)
        && (outcome == Refused ==> !SameContent(note, shown))
      ensures outcome == Advanced ==>
        && |old(past)| <= since + 1 && journal.Some?
        && journal.value.items == items && journal.value.folder == folder && !journal.value.complete
    {
      hide CompletionOk, JournalOk, Relinked, ManifestsNamePages, PlannedFrom;
      left := power;
      Devices();
      if !SameContent(note, shown) {
        return Refused, left;
      }
      if left == 0 {
        return Interrupted, left;
      }
      var copies := (if journal.Some? then journal.value.copies else []);
      if copies == [] || copies[|copies| - 1] != shown {
        copies := copies + [shown];
      }
      ghost var planned := manifests;
      World();
      SavePlan(Plan(month, folder, items, false, None, copies), month, planned);
      return Advanced, left - 1;
    }

    /** Once the pages are at their places: relink the note, move it, and complete the journal. */
    method CompletePlan(month: string, name: string, power: nat) returns (outcome: Outcome, left: nat)
      requires Valid() && journal.Some? && !journal.value.complete && |month| == 7
      requires |past| - 1 == since || |past| - 1 !in ours
      modifies `files, `note, `past, `ours, `journal, `visits
      ensures Valid() && old(past) <= past && old(visits) <= visits
      ensures left <= power <= left + 4 && outcome in {Refused, Interrupted, Filed}
      ensures outcome == Interrupted ==> left == 0
      ensures outcome == Refused && visits == old(visits) ==>
        !AsPlanned(old(note), month, set i | i in old(journal).value.items :: i.id)
      ensures outcome == Filed && visits == old(visits) ==>
        && journal.Some? && journal.value.content.Some?
        && journal.value.content.value.path == PlaceOf(old(note).path, old(journal).value.folder, name)
      ensures journal.Some? && journal.value.items == old(journal).value.items
      ensures outcome == Filed ==>
        && journal.value.complete && journal.value.content.Some?
        && exists c | c in journal.value.copies :: SameContent(c, journal.value.content.value)
    {
      hide CompletionOk, JournalOk, Relinked, ManifestsNamePages, SameContent, InFolder, CameOf, OursLater, AsPlanned,
        ValidDate;
      left := power;
      var items, folder, seen := journal.value.items, journal.value.folder, note;
      ghost var first, own := past, ours;
      assert SeenSince(past, since, seen);
      if !AsPlanned(seen, month, set i | i in items :: i.id) {
        return Refused, left;
      }
      outcome, seen, left := Relink(items, seen, left);
      if outcome != Advanced {
        return;
      }
      ghost var relinked, later, between := seen, past, ours;
      outcome, seen, left := MoveNote(folder, name, seen, left);
      if outcome != Advanced {
        return;
      }
      SameBody(seen, relinked);
      Devices();
      if left == 0 {
        return Interrupted, left;
      }
      OursCompose(first, later, own, between, ours);
      Completes(journal.value, past, since, own, ours, first, relinked, seen);
      SaveJournal(journal.value.(complete := true, content := Some(seen)));
      return Filed, left - 1;
    }

    /** Everything from the new plan on. */
    method CarryOut(shown: Note, month: string, folder: string, name: string, power: nat)
      returns (outcome: Outcome, left: nat, ghost items: seq<Item>)
      requires Valid() && IsMonth(month)
      modifies `files, `note, `past, `ours, `manifests, `journal, `history, `since, `removed, `visits
      ensures Valid() && old(past) <= past && old(history) <= history && old(visits) <= visits
      ensures left <= power <= left + 3 * |shown.sources| + 5 && outcome in {Refused, Interrupted, Filed}
      ensures outcome == Interrupted ==> left == 0
      ensures outcome == Refused && visits == old(visits) ==>
        !(old(note) == shown && AsPlanned(shown, month, shown.sources)
          && (forall id | id in shown.sources :: id in old(manifests) && ValidId(id))
          && PlansMayFile(sources, old(files), old(journal), old(manifests), shown.sources, month))
      ensures OldPages(old(removed), removed, items)
      ensures outcome == Filed ==> |old(past)| <= since + 1
      ensures outcome == Filed && visits == old(visits) ==>
        && journal.Some? && journal.value.content.Some?
        && journal.value.content.value.path == PlaceOf(old(note).path, folder, name)
      ensures outcome == Filed ==>
        && PlanFor(sources, old(journal), old(manifests), shown.sources, month, items)
        && journal.Some? && journal.value.complete && journal.value.items == items && journal.value.content.Some?
        && (forall i | i in items :: Settled(manifests, i) && Stays(sources, i))
        && exists c | c in journal.value.copies :: SameContent(c, journal.value.content.value)
    {
      hide CompletionOk, JournalOk, Relinked, ManifestsNamePages, PlannedFrom, Settled, InFolder, PlaceOf, AllMayFile,
        PlansMayFile, AsPlanned, Stays, FiledPath, ValidId, PlanFor, PlannedNow;
      left, items := power, [];
      var made := PlanItems(shown.sources, month);
      if made.None? {
        return Refused, left, items;
      }
      items := made.value;
      PlanGives(sources, files, journal, manifests, shown.sources, month, items);
      outcome, left := StartPlan(made.value, month, folder, shown, left);
      if outcome != Advanced {
        return;
      }
      outcome, left := FilePages(made.value, left);
      if outcome != Advanced {
        return;
      }
      ghost var placed := manifests;
      World();
      SettledLater(sources, placed, manifests, items);
      outcome, left := CompletePlan(month, name, left);
    }

    /** The note has a date and known sources, and each of their pages can be filed, none in another's way. */
    ghost predicate Fileable()
      reads this
    {
      && ValidDate(note.date)
      && (forall id | id in note.sources :: id in manifests && ValidId(id))
      && PlansMayFile(sources, files, journal, manifests, note.sources, note.date[..7])
    }

    /**
     File the note. Whatever interrupts it, the manifests name pages that are there and the journal
     covers the page paths of the plans each source was in without a break; when it completes, the
     pages are at their places, and the note as this call saw it is in its folder and links to no
     former page. Of the old pages only those go that the completed plan itself moved. Undisturbed, and
     approved, it is refused only where it cannot be filed.
     */
    method FileNote(name: string, power: nat) returns (outcome: Outcome, left: nat)
      requires Valid()
      modifies this
      ensures Valid() && old(past) <= past && old(history) <= history && old(visits) <= visits
      ensures left <= power <= left + 3 * |old(note).sources| + 6 && (outcome == Interrupted ==> left == 0)
      ensures outcome == NotReviewed <==> !old(note).reviewed
      ensures outcome == NeedsReview ==> reviews.Some? && !Approves(reviews.value, old(note), old(manifests))
      ensures old(reviews).Some? ==> reviews == old(reviews)
      ensures outcome == Refused && visits == old(visits) ==> !old(Fileable())
      ensures outcome == Filed && visits == old(visits) ==>
        && journal.Some? && journal.value.content.Some?
        && journal.value.content.value.path == PlaceOf(old(note).path, folderOf(old(note).date), name)
      ensures outcome == Filed ==>
        && journal.Some? && journal.value.complete && |old(past)| <= since + 1
        && CompletionOk(journal, past, since, ours)
        && OldPages(old(removed), removed, journal.value.items)
      ensures outcome == Filed ==>
        && ValidDate(old(note).date)
        && PlanFor(sources, old(journal), old(manifests), old(note).sources, old(note).date[..7], journal.value.items)
        && forall i | i in journal.value.items :: Settled(manifests, i) && Stays(sources, i)
      ensures outcome == Filed ==> exists c | c in journal.value.copies :: SameContent(c, journal.value.content.value)
      ensures old(InPlace()) ==>
        outcome in {Idle, Interrupted} && files == old(files) && manifests == old(manifests) && note == old(note)
      ensures outcome == Idle ==> old(UpToDateNow())
    {
      hide CompletionOk, JournalOk, Relinked, ManifestsNamePages, FiledPath, PlanFor, Settled, Links, PlansMayFile,
        PlaceOf, UpToDate, ValidId, OldPages;
      left := power;
      var seen := note;
      if !seen.reviewed {
        return NotReviewed, left;
      }
      if !ValidDate(seen.date) {
        return Refused, left;
      }
      var month, folder := seen.date[..7], folderOf(seen.date);
      if exists id | id in seen.sources :: id !in manifests || !ValidId(id) {
        return Refused, left;
      }
      outcome, left := ApprovedRevisions(seen, left);
      if outcome != Advanced {
        return;
      }
      if UpToDate(sources, journal, manifests, seen, folder, month) {
        UpToDateHasJournal(sources, journal, manifests, seen, folder, month);
        outcome, left := Settle(left);
        return;
      }
      ghost var items;
      outcome, left, items := CarryOut(seen, month, folder, name, left);
    }

    /** A filing that was already complete only forgets its copies. */
    method Settle(power: nat) returns (outcome: Outcome, left: nat)
      requires Valid() && journal.Some?
      modifies `journal
      ensures Valid() && left <= power <= left + 1 && outcome in {Idle, Interrupted}
      ensures outcome == Interrupted ==> left == 0
    {
      hide JournalOk, Relinked, ManifestsNamePages;
      left := power;
      if journal.value.copies != [] {
        if left == 0 {
          return Interrupted, left;
        }
        SaveJournal(journal.value.(copies := []));
        left := left - 1;
      }
      return Idle, left;
    }
  }

  lemma OursCompose(first: seq<Note>, later: seq<Note>, own: set<nat>, between: set<nat>, ours: set<nat>)
    requires first <= later && OursLater(first, own, between) && OursLater(later, between, ours)
    ensures OursLater(first, own, ours)
  {
  }

  lemma Completes(plan: Plan, past: seq<Note>, since: nat, own: set<nat>, ours: set<nat>, first: seq<Note>,
                  relinked: Note, seen: Note)
    requires SeenSince(past, since, seen) && InFolder(seen.path, plan.folder) && Relinked(seen.body, plan.items)
    requires first != [] && first <= past && since < |first| && (|first| - 1 == since || |first| - 1 !in own)
    requires OursLater(first, own, ours)
    requires var n := first[|first| - 1];
      CameOf(n.body, relinked.body, plan.items) && SameContent(relinked, n.(body := relinked.body))
    requires SameContent(seen, relinked)
    ensures CompletionOk(Some(plan.(complete := true, content := Some(seen))), past, since, ours)
  {
    hide CameOf, Relinked;
    FiledContent(first[|first| - 1], relinked, seen);
    assert FiledFrom(past, since, ours, |first| - 1, seen, plan.items);
  }

  lemma FiledContent(first: Note, relinked: Note, filed: Note)
    requires SameContent(relinked, first.(body := relinked.body)) && SameContent(filed, relinked)
    ensures filed == first.(body := filed.body, path := filed.path) && filed.body == relinked.body
  {
  }

  lemma SameBody(a: Note, b: Note)
    ensures SameContent(a, b) ==> a.body == b.body
  {
  }

  /** A page that is settled stays settled: filing it again, under whatever month, gives the place it has. */
  lemma SettledLater(sources: string, before: map<string, Manifest>, after: map<string, Manifest>, items: seq<Item>)
    requires OthersFiled(sources, before, after)
    requires forall i | i in items :: Settled(before, i) && Stays(sources, i)
    ensures forall i | i in items :: Settled(after, i)
  {
    hide FiledPath;
    forall i | i in items ensures Settled(after, i) {
      assert Settled(before, i) && Stays(sources, i) && MovedOrNot(sources, i.id, before[i.id], after[i.id]);
      if month :| MovedUnder(sources, i.id, before[i.id], after[i.id], month) {
        assert |month| == 7;
      }
    }
  }

  lemma SettledToo(before: map<string, Manifest>, after: map<string, Manifest>, items: seq<Item>, k: nat,
                   advanced: bool)
    requires OnePerSource(items) && k < |items| && forall i | i in items[..k] :: Settled(before, i)
    requires advanced ==>
      items[k].id in before && after == before[items[k].id := Manifest(items[k].revision, items[k].to, items[k].to)]
    ensures advanced ==> forall i | i in items[..k + 1] :: Settled(after, i)
  {
    if advanced {
      forall i | i in items[..k + 1] ensures Settled(after, i) {
        var j: nat :| j < k + 1 && items[j] == i;
        if j < k {
          assert items[..k][j] in items[..k] && items[j].id != items[k].id;
        } else {
          assert after[i.id] == Manifest(i.revision, i.to, i.to);
        }
      }
    }
  }

  lemma PlannedId(previous: Option<Item>, id: string, manifest: Manifest, to: string)
    ensures Planned(previous, id, manifest, to).id == id
  {
  }

  lemma AddItem(items: seq<Item>, i: Item)
    requires OnePerSource(items) && i.id !in (set j | j in items :: j.id)
    ensures OnePerSource(items + [i]) && (set j | j in items + [i] :: j.id) == (set j | j in items :: j.id) + {i.id}
  {
    forall k | 0 <= k < |items| ensures items[k].id != i.id {
      assert items[k] in items;
    }
  }

  lemma SeenLater(past: seq<Note>, since: nat, n: Note, next: Note)
    ensures SeenSince(past, since, n) ==> SeenSince(past + [next], since, n)
  {
    if k: nat :| since <= k < |past| && past[k] == n {
      assert (past + [next])[k] == n;
    }
  }

  /** Of the versions there were, none has become the filing's own. */
  ghost predicate OursLater(past: seq<Note>, ours: set<nat>, later: set<nat>) {
    forall k | k in later && k < |past| :: k in ours
  }

  lemma LaterPast(journal: Option<Plan>, past: seq<Note>, since: nat, ours: set<nat>, next: Note, later: set<nat>)
    requires CompletionOk(journal, past, since, ours) && OursLater(past, ours, later)
    ensures CompletionOk(journal, past + [next], since, later)
  {
    hide CameOf;
    if journal.Some? && journal.value.complete {
      var n, items := journal.value.content.value, journal.value.items;
      SeenLater(past, since, n, next);
      var k: nat :| FiledFrom(past, since, ours, k, n, items);
      assert FiledFrom(past + [next], since, later, k, n, items);
    }
  }

  lemma UpToDateHasJournal(sources: string, journal: Option<Plan>, manifests: map<string, Manifest>, note: Note,
                           folder: string, month: string)
    requires |month| >= 4 && UpToDate(sources, journal, manifests, note, folder, month)
    ensures journal.Some?
  {
  }

  /** From where the manifest names the page, at the revision it has, to its place of the month. */
  predicate PlannedNow(sources: string, manifest: Manifest, month: string, i: Item)
    requires |month| >= 4
  {
    && i.from == manifest.projection && i.revision == manifest.current
    && i.to == FiledPath(sources, manifest.filed, i.id, month)
  }

  lemma PlannedAt(sources: string, journal: Option<Plan>, manifests: map<string, Manifest>, month: string, i: Item)
    requires PlannedFrom(sources, journal, manifests, month, i)
    ensures i.id in manifests && IsMonth(month) && PlannedNow(sources, manifests[i.id], month, i)
  {
  }

  lemma PlanGives(sources: string, files: map<string, File>, journal: Option<Plan>, manifests: map<string, Manifest>,
                  ids: set<string>, month: string, items: seq<Item>)
    requires PlanFor(sources, journal, manifests, ids, month, items)
    ensures OnePerSource(items) && ids == (set i | i in items :: i.id) && |items| == |ids|
    ensures forall i | i in items :: PlannedFrom(sources, journal, manifests, month, i) && Stays(sources, i)
    ensures PlansMayFile(sources, files, journal, manifests, ids, month) ==>
      AllMayFile(sources, files, manifests, items)
    ensures forall i | i in items ::
      i.id in manifests && IsMonth(month) && PlannedNow(sources, manifests[i.id], month, i)
  {
    hide PlannedFrom, Stays, AllMayFile, PlannedNow;
    SourcesCounted(items);
    forall i | i in items ensures i.id in manifests && IsMonth(month)
      && PlannedNow(sources, manifests[i.id], month, i) {
      PlannedAt(sources, journal, manifests, month, i);
    }
    forall i | i in items ensures Stays(sources, i) {
      KnownManifest(sources, journal, manifests, month, i);
    }
  }

  lemma {:induction false} SourcesCounted(items: seq<Item>)
    requires OnePerSource(items)
    ensures |set i | i in items :: i.id| == |items|
  {
    if items != [] {
      var before, i := items[..|items| - 1], items[|items| - 1];
      SourcesCounted(before);
      assert items == before + [i];
      assert (set j | j in items :: j.id) == (set j | j in before :: j.id) + {i.id};
    }
  }

  lemma JournalApproves(journal: Option<Plan>, manifests: map<string, Manifest>, history: seq<seq<Item>>)
    requires JournalOk(journal, manifests, history)
    ensures journal.Some? ==> forall i | i in journal.value.items :: ApprovedIn(journal.value.items, i.id) == i.revision
  {
    if journal.Some? {
      forall i | i in journal.value.items ensures ApprovedIn(journal.value.items, i.id) == i.revision {
        ItemOfUnique(journal.value.items, i);
      }
    }
  }

  lemma SameSources(journal: Option<Plan>, manifests: map<string, Manifest>, named: map<string, Manifest>,
                    history: seq<seq<Item>>)
    requires JournalOk(journal, manifests, history) && manifests.Keys == named.Keys
    ensures JournalOk(journal, named, history)
  {
  }

  lemma JournalHas(journal: Option<Plan>, manifests: map<string, Manifest>, history: seq<seq<Item>>, item: Item)
    requires JournalOk(journal, manifests, history) && journal.Some? && item in journal.value.items
    ensures item.id in manifests
  {
  }

  lemma NamesPage(files: map<string, File>, manifests: map<string, Manifest>, id: string, manifest: Manifest)
    requires ManifestsNamePages(files, manifests) && PageOf(files, manifest.projection, id)
    ensures ManifestsNamePages(files, manifests[id := manifest])
  {
  }

  lemma Recorded(journal: Option<Plan>, manifests: map<string, Manifest>, history: seq<seq<Item>>, item: Item,
                 manifest: Manifest)
    requires JournalOk(journal, manifests, history) && journal.Some? && item in journal.value.items
    requires manifest.projection == item.to
    ensures item.id in manifests && JournalOk(journal, manifests[item.id := manifest], history)
  {
    forall i | i in journal.value.items && i.id == item.id ensures i == item {
      ItemOfUnique(journal.value.items, i);
      ItemOfUnique(journal.value.items, item);
    }
  }

  lemma OneMoreRemoved(first: seq<string>, before: seq<string>, after: seq<string>, items: seq<Item>, item: Item)
    requires OldPages(first, before, items) && item in items
    requires after == before || (item.from != item.to && after == before + [item.from])
    ensures OldPages(first, after, items)
  {
    if after != before {
      assert after[|first|..] == before[|first|..] + [item.from];
    }
  }
}
