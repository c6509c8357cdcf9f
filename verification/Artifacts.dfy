/**
 The artifact store: every revision is archived under its number before anything shows it, and a
 browsable copy lives among the notes, where devices may do with it what they like. Between any two
 steps a device may change the vault; a step may fail, or the process may end, at every durable write.
 Reading a copy at its place and replacing or removing it on that ground is one step; placing, undoing
 and putting back are steps of their own.
 */
module Artifacts {
  import opened Results
  import opened ArtifactRecords
  import opened ArtifactRuns

  // ----- Every content the vault ever had -----

  datatype Actor = ByDevice | ByCreating | ByUndoing | ByRevising | ByRetiring | ByRestoring | ByTaking

  datatype View = View(vault: map<string, Bytes>, actor: Actor)

  function Latest(views: seq<View>): map<string, Bytes>
    requires views != []
  {
    views[|views| - 1].vault
  }

  predicate Same(a: map<string, Bytes>, b: map<string, Bytes>, p: string) {
    (p in a <==> p in b) && (p in a ==> a[p] == b[p])
  }

  /** The store deleted or overwrote what stood at a path. */
  predicate GoneAt(views: seq<View>, k: nat, p: string) {
    && 0 < k < |views| && !views[k].actor.ByDevice?
    && p in views[k - 1].vault && !Same(views[k - 1].vault, views[k].vault, p)
  }

  /** In between the store did nothing at a path. */
  predicate Untouched(views: seq<View>, i: nat, k: nat, p: string) {
    forall n: nat | i < n < k && n < |views| && !views[n].actor.ByDevice? :: Same(views[n - 1].vault, views[n].vault, p)
  }

  predicate CreatedAt(views: seq<View>, i: nat, p: string) {
    0 < i < |views| && views[i].actor.ByCreating? && p !in views[i - 1].vault && p in views[i].vault
  }

  predicate OnRecordAt(views: seq<View>, manifests: map<string, Manifest>, i: nat, p: string) {
    i < |views| && p in views[i].vault && Recorded(manifests, views[i].vault[p])
  }

  /**
   Revising and retiring take recorded bytes only. Undoing a creation takes what is at the place the
   creation put its copy, and putting back takes what is where recorded bytes were read before.
   */
  ghost predicate Explained(views: seq<View>, manifests: map<string, Manifest>, k: nat, p: string)
    requires GoneAt(views, k, p)
  {
    match views[k].actor
    case ByRevising => Recorded(manifests, views[k - 1].vault[p])
    case ByRetiring => Recorded(manifests, views[k - 1].vault[p])
    case ByUndoing => exists i: nat | i < k :: CreatedAt(views, i, p) && Untouched(views, i, k, p)
    case ByTaking => exists i: nat | i < k :: OnRecordAt(views, manifests, i, p) && Untouched(views, i, k, p)
    case _ => false
  }

  ghost predicate LossesExplained(views: seq<View>, manifests: map<string, Manifest>) {
    forall k: nat, p | GoneAt(views, k, p) :: Explained(views, manifests, k, p)
  }

  /** A device was the last to change what stood at a path. */
  ghost predicate LastWrittenByDevice(views: seq<View>, i: nat, k: nat, p: string)
    requires k <= |views|
  {
    exists n: nat | i < n < k :: DeviceWrote(views, n, p) && Still(views, n, k, p)
  }

  predicate DeviceWrote(views: seq<View>, n: nat, p: string) {
    0 < n < |views| && views[n].actor.ByDevice? && !Same(views[n - 1].vault, views[n].vault, p)
  }

  predicate Still(views: seq<View>, n: nat, k: nat, p: string)
    requires k <= |views|
  {
    forall m: nat | n < m < k :: Same(views[m - 1].vault, views[m].vault, p)
  }

  lemma {:induction false} ChangedByDevice(views: seq<View>, i: nat, k: nat, p: string)
    requires i < k <= |views| && Untouched(views, i, k, p) && !Same(views[i].vault, views[k - 1].vault, p)
    ensures LastWrittenByDevice(views, i, k, p)
    decreases k
  {
    hide Same;
    SameTransitive(views[i].vault, views[i].vault, views[i].vault, p);
    if Same(views[k - 2].vault, views[k - 1].vault, p) {
      SameTransitive(views[i].vault, views[k - 2].vault, views[k - 1].vault, p);
      ChangedByDevice(views, i, k - 1, p);
      var n: nat :| i < n < k - 1 && DeviceWrote(views, n, p) && Still(views, n, k - 1, p);
      assert Still(views, n, k, p);
    } else {
      assert DeviceWrote(views, k - 1, p) && Still(views, k - 1, k, p);
    }
  }

  lemma SameTransitive(a: map<string, Bytes>, b: map<string, Bytes>, c: map<string, Bytes>, p: string)
    ensures Same(a, b, p) && Same(b, c, p) ==> Same(a, c, p)
    ensures Same(a, a, p)
  {
  }

  /** What stands at a path is what the creation put there, or a device was the last to change it. */
  ghost predicate OwnOrEdited(views: seq<View>, i: nat, k: nat, p: string)
    requires CreatedAt(views, i, p) && GoneAt(views, k, p)
  {
    views[i].vault[p] == views[k - 1].vault[p] || LastWrittenByDevice(views, i, k, p)
  }

  /**
   Over every history: what the store ever deleted or overwrote is on record, except in two cases. An
   undone creation takes its own copy, or what a device made of it; and putting back takes what a
   device made of the file after it was read.
   */
  lemma UnrecordedLossesAreOfTwoKinds(views: seq<View>, manifests: map<string, Manifest>, k: nat, p: string)
    requires LossesExplained(views, manifests) && GoneAt(views, k, p) && !Recorded(manifests, views[k - 1].vault[p])
    ensures
      || (views[k].actor.ByUndoing? && exists i: nat | i < k && CreatedAt(views, i, p) :: OwnOrEdited(views, i, k, p))
      || (views[k].actor.ByTaking? && exists i: nat | i < k && OnRecordAt(views, manifests, i, p) ::
        LastWrittenByDevice(views, i, k, p))
  {
    hide Recorded, LastWrittenByDevice;
    assert Explained(views, manifests, k, p);
    if views[k].actor.ByUndoing? {
      var i: nat :| i < k && CreatedAt(views, i, p) && Untouched(views, i, k, p);
      if views[i].vault[p] != views[k - 1].vault[p] {
        ChangedByDevice(views, i, k, p);
      }
    } else {
      var i: nat :| i < k && OnRecordAt(views, manifests, i, p) && Untouched(views, i, k, p);
      ChangedByDevice(views, i, k, p);
    }
  }

  // ----- Keeping account of them -----

  lemma ExplainedLater(views: seq<View>, manifests: map<string, Manifest>, later: seq<View>,
                       grown: map<string, Manifest>, k: nat, p: string)
    requires views <= later && Grew(manifests, grown) && GoneAt(views, k, p) && Explained(views, manifests, k, p)
    ensures GoneAt(later, k, p) && Explained(later, grown, k, p)
  {
    hide Recorded, Grew, Same;
    assert forall n: nat | n < |views| :: later[n] == views[n];
    match views[k].actor
    case ByUndoing =>
      var i: nat :| i < k && CreatedAt(views, i, p) && Untouched(views, i, k, p);
      UntouchedLater(views, later, i, k, p);
      assert CreatedAt(later, i, p);
    case ByTaking =>
      var i: nat :| i < k && OnRecordAt(views, manifests, i, p) && Untouched(views, i, k, p);
      UntouchedLater(views, later, i, k, p);
      RecordedStays(manifests, grown, views[i].vault[p]);
      assert OnRecordAt(later, grown, i, p);
    case ByRevising => RecordedStays(manifests, grown, views[k - 1].vault[p]);
    case ByRetiring => RecordedStays(manifests, grown, views[k - 1].vault[p]);
    case _ =>
  }

  lemma UntouchedLater(views: seq<View>, later: seq<View>, i: nat, k: nat, p: string)
    requires views <= later && Untouched(views, i, k, p) && k <= |views|
    ensures Untouched(later, i, k, p)
  {
    hide Same;
    forall n: nat | i < n < k && n < |later| && !later[n].actor.ByDevice?
      ensures Same(later[n - 1].vault, later[n].vault, p)
    {
      assert later[n - 1] == views[n - 1] && later[n] == views[n];
    }
  }

  /** Nothing goes from the vault in the views that were added. */
  ghost predicate NoNewLosses(views: seq<View>, later: seq<View>) {
    views <= later && forall k: nat, p | |views| <= k :: !GoneAt(later, k, p)
  }

  lemma NoNewLossesTransitive(a: seq<View>, b: seq<View>, c: seq<View>)
    requires NoNewLosses(a, b) && NoNewLosses(b, c)
    ensures NoNewLosses(a, c)
  {
    hide Same;
    forall k: nat, p | |a| <= k ensures !GoneAt(c, k, p) {
      if k < |b| {
        assert c[k] == b[k] && (k > 0 ==> c[k - 1] == b[k - 1]);
        assert !GoneAt(b, k, p);
      }
    }
  }

  lemma AccountStays(views: seq<View>, manifests: map<string, Manifest>, later: seq<View>, grown: map<string, Manifest>)
    requires LossesExplained(views, manifests) && NoNewLosses(views, later) && Grew(manifests, grown)
    ensures LossesExplained(later, grown)
  {
    hide Explained, Grew, Same;
    forall k: nat, p | GoneAt(later, k, p) ensures Explained(later, grown, k, p) {
      assert k < |views|;
      assert later[k] == views[k] && later[k - 1] == views[k - 1];
      ExplainedLater(views, manifests, later, grown, k, p);
    }
  }

  /** One more view, in which one path changes, for a reason. */
  lemma AccountOneMore(views: seq<View>, manifests: map<string, Manifest>, v: View, path: string)
    requires views != [] && LossesExplained(views, manifests)
    requires forall p | p != path :: Same(Latest(views), v.vault, p)
    requires GoneAt(views + [v], |views|, path) ==> Explained(views + [v], manifests, |views|, path)
    ensures LossesExplained(views + [v], manifests)
  {
    hide Explained, Grew, Same;
    GrewSelf(manifests);
    forall k: nat, p | GoneAt(views + [v], k, p) ensures Explained(views + [v], manifests, k, p) {
      if k < |views| {
        assert (views + [v])[k] == views[k] && (views + [v])[k - 1] == views[k - 1];
        ExplainedLater(views, manifests, views + [v], manifests, k, p);
      } else {
        assert (views + [v])[k] == v && (views + [v])[k - 1].vault == Latest(views);
        assert p == path;
      }
    }
  }

  /** One more view in which nothing that was there is gone. */
  lemma NothingGone(views: seq<View>, v: View)
    requires views != []
    requires v.actor.ByDevice? || forall p | p in Latest(views) :: Same(Latest(views), v.vault, p)
    ensures NoNewLosses(views, views + [v])
  {
    hide Same;
    var later := views + [v];
    forall k: nat, p | |views| <= k ensures !GoneAt(later, k, p) {
      if k == |views| {
        assert later[k] == v && later[k - 1].vault == Latest(views);
      }
    }
  }

  /** A step succeeds, raises an error after which the program cleans up, or is the last one. */
  datatype Luck = Fine | Fault | End

  datatype Outcome = Done | Failed | Ended | Refused

  /** The artifact a request is about: the one it names, or the one its bytes or link are known by. */
  function Known(id: Option<string>, replay: Option<string>): Option<string> {
    if id.Some? then id else replay
  }

  datatype Moved = Restored | Absent | Unknown

  /** Why the store may take what stands at a path. */
  ghost predicate Reason(views: seq<View>, manifests: map<string, Manifest>, actor: Actor, path: string)
    requires views != [] && path in Latest(views)
  {
    match actor
    case ByRevising => Recorded(manifests, Latest(views)[path])
    case ByRetiring => Recorded(manifests, Latest(views)[path])
    case ByUndoing => OwnPlace(views, path)
    case ByTaking => ReadPlace(views, manifests, path)
    case _ => false
  }

  ghost predicate OwnPlace(views: seq<View>, path: string) {
    exists i: nat | i < |views| :: CreatedAt(views, i, path) && Untouched(views, i, |views|, path)
  }

  ghost predicate ReadPlace(views: seq<View>, manifests: map<string, Manifest>, path: string) {
    exists i: nat | i < |views| :: OnRecordAt(views, manifests, i, path) && Untouched(views, i, |views|, path)
  }

  lemma ReasonExplains(views: seq<View>, manifests: map<string, Manifest>, v: View, path: string)
    requires views != [] && path in Latest(views) && Reason(views, manifests, v.actor, path)
    ensures GoneAt(views + [v], |views|, path) ==> Explained(views + [v], manifests, |views|, path)
  {
    hide Recorded, Same;
    var later := views + [v];
    if GoneAt(later, |views|, path) {
      assert later[|views|] == v && later[|views| - 1] == views[|views| - 1];
      if v.actor.ByUndoing? {
        var i: nat :| i < |views| && CreatedAt(views, i, path) && Untouched(views, i, |views|, path);
        UntouchedLater(views, later, i, |views|, path);
        assert CreatedAt(later, i, path);
      } else if v.actor.ByTaking? {
        var i: nat :| i < |views| && OnRecordAt(views, manifests, i, path) && Untouched(views, i, |views|, path);
        UntouchedLater(views, later, i, |views|, path);
        assert OnRecordAt(later, manifests, i, path);
      }
    }
  }

  /** What a device does changes nothing about who placed or read something. */
  lemma PlaceKept(views: seq<View>, v: View, path: string, i: nat)
    requires i < |views| && Untouched(views, i, |views|, path)
    requires v.actor.ByDevice? || (views != [] && Same(Latest(views), v.vault, path))
    ensures Untouched(views + [v], i, |views| + 1, path)
  {
    hide Same;
    var later := views + [v];
    forall n: nat | i < n < |later| && !later[n].actor.ByDevice?
      ensures Same(later[n - 1].vault, later[n].vault, path) {
      assert later[n - 1] == views[n - 1];
      assert n < |views| ==> later[n] == views[n];
    }
  }

  lemma OwnPlaceKept(views: seq<View>, v: View, path: string)
    requires v.actor.ByDevice?
    ensures OwnPlace(views, path) ==> OwnPlace(views + [v], path)
  {
    if i: nat :| i < |views| && CreatedAt(views, i, path) && Untouched(views, i, |views|, path) {
      PlaceKept(views, v, path, i);
      assert CreatedAt(views + [v], i, path);
    }
  }

  lemma ReadPlaceKept(views: seq<View>, manifests: map<string, Manifest>, v: View, path: string)
    requires v.actor.ByDevice? || (views != [] && Same(Latest(views), v.vault, path))
    ensures ReadPlace(views, manifests, path) ==> ReadPlace(views + [v], manifests, path)
  {
    hide Recorded, Same;
    if i: nat :| i < |views| && OnRecordAt(views, manifests, i, path) && Untouched(views, i, |views|, path) {
      PlaceKept(views, v, path, i);
      assert (views + [v])[i] == views[i];
      assert OnRecordAt(views + [v], manifests, i, path);
    }
  }

  /** The first of two names that is free. */
  function FreeOf(vault: map<string, Bytes>, first: string, second: string): (p: Option<string>)
    ensures p == None <==> first in vault && second in vault
    ensures p.Some? ==> p.value in {first, second} && p.value !in vault && (first !in vault ==> p.value == first)
  {
    if first !in vault then Some(first) else if second !in vault then Some(second) else None
  }

  /** Where the copy of new bytes goes: the place of the old one unless somebody else's bytes are there. */
  function CopyPlace(vault: map<string, Bytes>, m: Manifest, beside: string): (p: Option<string>)
    ensures p == None <==> beside in vault && !Replaceable(vault, m)
    ensures p.Some? ==> p == if Replaceable(vault, m) then m.path else Some(beside)
  {
    if Replaceable(vault, m) then m.path else if beside !in vault then Some(beside) else None
  }

  /** The copy is gone, or still is the last archived bytes. */
  predicate Replaceable(vault: map<string, Bytes>, m: Manifest) {
    m.path.Some? && (m.path.value !in vault ||
      (m.revisions != [] && Some(vault[m.path.value]) == m.revisions[|m.revisions| - 1].data))
  }

  /** The copy is the last archived bytes. */
  predicate Shows(vault: map<string, Bytes>, m: Manifest) {
    && m.path.Some? && m.path.value in vault && m.revisions != []
    && Some(vault[m.path.value]) == m.revisions[|m.revisions| - 1].data
  }

  /** A file that may be the copy: not older than the last revision, and unreadable or its very bytes. */
  predicate MayBeCopy(vault: map<string, Bytes>, m: Manifest, older: set<string>, unreadable: set<string>, p: string) {
    p in vault && p !in older && (p in unreadable || IsCopy(vault, m, older, unreadable, p))
  }

  /** A file, not older than the last revision, that is exactly its bytes. */
  predicate IsCopy(vault: map<string, Bytes>, m: Manifest, older: set<string>, unreadable: set<string>, p: string) {
    && p in vault && p !in older && p !in unreadable && m.revisions != []
    && Some(vault[p]) == m.revisions[|m.revisions| - 1].data
  }

  /** The last revision has these bytes already, or, where there are none, the artifact has this link. */
  predicate SameAlready(m: Manifest, data: Option<Bytes>, url: Option<string>) {
    if data.Some? then m.revisions != [] && m.revisions[|m.revisions| - 1].data == data else m.url == url
  }

  /** Exactly one revision more, the last, with these bytes and this link, and otherwise the same artifact. */
  predicate OneMore(was: Manifest, now: Manifest, data: Option<Bytes>, url: Option<string>) {
    && |now.revisions| == |was.revisions| + 1 && was.revisions <= now.revisions
    && now.revisions[|was.revisions|] == Revision(|was.revisions| + 1, data, url)
    && now.current == |now.revisions| && now.removed == was.removed
    && now.url == (if url.Some? then url else was.url)
    && (data.None? ==> now.path == was.path)
  }

  class ArtifactStore {
    var archive: Archive
    var manifests: map<string, Manifest>
    var vault: map<string, Bytes>
    /** Every content the vault ever had, and who brought it about. */
    ghost var views: seq<View>
    /** How often a device changed the vault, or something failed. */
    ghost var visits: nat

    ghost predicate Valid()
      reads this
    {
      ManifestsOk(archive, manifests) && Viewed() && LossesExplained(views, manifests)
    }

    ghost predicate Viewed()
      reads this
    {
      views != [] && Latest(views) == vault
    }

    constructor ()
      ensures Valid() && manifests == map[]
    {
      archive, manifests, vault, views, visits := map[], map[], map[], [View(map[], ByDevice)], 0;
    }

    method Chance() returns (luck: Luck)
      modifies `visits
      ensures old(visits) <= visits && (luck == Fine <==> visits == old(visits))
    {
      luck := *;
      if luck != Fine {
        visits := visits + 1;
      }
    }

    /** Devices may change anything in the vault. */
    method Devices()
      requires Viewed()
      modifies `vault, `views, `visits
      ensures Viewed() && views == old(views) + [View(vault, ByDevice)] && NoNewLosses(old(views), views)
      ensures old(Valid()) ==> Valid()
      ensures old(visits) <= visits && (visits == old(visits) ==> vault == old(vault))
    {
      hide LossesExplained, NoNewLosses, ManifestsOk;
      vault := *;
      if vault != old(vault) {
        visits := visits + 1;
      }
      views := views + [View(vault, ByDevice)];
      Account(old(views), View(vault, ByDevice), manifests);
    }

    /** `create_exclusive_bytes`: only where nothing is. */
    method Place(path: string, data: Bytes, ghost actor: Actor) returns (placed: bool)
      requires Viewed()
      modifies `vault, `views
      ensures Viewed() && NoNewLosses(old(views), views) && (old(Valid()) ==> Valid())
      ensures placed <==> path !in old(vault)
      ensures vault == if placed then old(vault)[path := data] else old(vault)
      ensures views == if placed then old(views) + [View(vault, actor)] else old(views)
    {
      hide LossesExplained, NoNewLosses, ManifestsOk, GoneAt;
      placed := path !in vault;
      if placed {
        vault := vault[path := data];
        views := views + [View(vault, actor)];
        Account(old(views), View(vault, actor), manifests);
      } else {
        Reflexive(views);
      }
    }

    /** Overwrite or remove what stands at one path, for a reason. */
    method SetAt(path: string, content: Option<Bytes>, ghost actor: Actor)
      requires Valid() && (path in vault ==> Reason(views, manifests, actor, path))
      modifies `vault, `views
      ensures Valid() && views == old(views) + [View(vault, actor)]
      ensures vault == if content.Some? then old(vault)[path := content.value] else old(vault) - {path}
    {
      hide LossesExplained, ManifestsOk, Reason, GoneAt, Explained;
      vault := if content.Some? then vault[path := content.value] else vault - {path};
      if path in old(vault) {
        ReasonExplains(views, manifests, View(vault, actor), path);
      } else {
        NothingThere(views, View(vault, actor), path);
      }
      AccountOneMore(views, manifests, View(vault, actor), path);
      views := views + [View(vault, actor)];
    }

    // ----- Creating -----

    /** The state of a creation or revision in this store. */
    ghost function Now(copy: Option<string>, stage: Stage): Making
      reads this
    {
      Making(archive, manifests, vault, copy, stage)
    }

    /** Devices at work during a creation. */
    method Meanwhile(o: Order, ghost start: Making, ghost moves: seq<Move>, ghost copy: Option<string>,
                     ghost stage: Stage)
      returns (ghost later: seq<Move>)
      requires Viewed() && RunTo(o, start, moves) == Some(Now(copy, stage)) && Undo !in moves
      modifies `vault, `views, `visits
      ensures Viewed() && NoNewLosses(old(views), views) && (old(Valid()) ==> Valid())
      ensures RunTo(o, start, later) == Some(Now(copy, stage)) && Undo !in later
      ensures copy.Some? && OwnPlace(old(views), copy.value) ==> OwnPlace(views, copy.value)
      ensures old(visits) <= visits && (visits == old(visits) ==> vault == old(vault))
    {
      hide LossesExplained, NoNewLosses, ManifestsOk, OwnPlace;
      Devices();
      later := moves + [Device(vault)];
      RunMore(o, start, moves, old(Now(copy, stage)), Device(vault));
      if copy.Some? {
        OwnPlaceKept(old(views), View(vault, ByDevice), copy.value);
      }
    }

    /** The copy under one name, if nothing is there. */
    method ShowAt(o: Order, path: string, ghost start: Making, ghost moves: seq<Move>)
      returns (placed: bool, ghost later: seq<Move>)
      requires Viewed() && o.data.Some? && RunTo(o, start, moves) == Some(Now(None, Kept)) && Undo !in moves
      modifies `vault, `views, `visits
      ensures Viewed() && NoNewLosses(old(views), views) && (old(Valid()) ==> Valid()) && Undo !in later
      ensures RunTo(o, start, later) == Some(if placed then Now(Some(path), Shown) else Now(None, Kept))
      ensures placed ==> OwnPlace(views, path)
      ensures old(visits) <= visits && (visits == old(visits) ==>
        && (placed <==> path !in old(vault))
        && vault == if placed then old(vault)[path := o.data.value] else old(vault))
    {
      hide LossesExplained, NoNewLosses, ManifestsOk, OwnPlace;
      later := Meanwhile(o, start, moves, None, Kept);
      ghost var before, seen := Now(None, Kept), views;
      placed := Place(path, o.data.value, ByCreating);
      if placed {
        RunMore(o, start, later, before, Show(path));
        later := later + [Show(path)];
        JustCreated(seen, View(vault, ByCreating), path);
      }
      NoNewLossesTransitive(old(views), seen, views);
    }

    /** Archive the bytes and show a copy, under the second name if something landed at the first. */
    method KeepAndShow(o: Order, first: string, second: string, ghost start: Making, ghost moves: seq<Move>)
      returns (placed: Option<string>, ghost later: seq<Move>)
      requires Valid() && o.data.Some? && RunTo(o, start, moves) == Some(Now(None, Began)) && Undo !in moves
      requires o.id !in manifests
      modifies `archive, `vault, `views, `visits
      ensures Valid() && NoNewLosses(old(views), views) && Undo !in later
      ensures archive == old(archive)[(o.id, 1) := o.data.value]
      ensures RunTo(o, start, later) == Some(Now(placed, if placed.Some? then Shown else Kept))
      ensures placed.Some? ==> placed.value in {first, second} && OwnPlace(views, placed.value)
      ensures old(visits) <= visits && (visits == old(visits) ==>
        && placed == FreeOf(old(vault), first, second)
        && vault == if placed.Some? then old(vault)[placed.value := o.data.value] else old(vault))
    {
      hide ManifestsOk, LossesExplained, NoNewLosses, OwnPlace, After;
      AnotherFile(archive, manifests, o.id, o.data.value);
      RunMore(o, start, moves, Now(None, Began), Keep);
      archive := archive[(o.id, 1) := o.data.value];
      later := moves + [Keep];
      KeepGives(o, old(Now(None, Began)));
      var ok;
      ok, later := ShowAt(o, first, start, later);
      if ok {
        return Some(first), later;
      }
      ghost var seen := views;
      ok, later := ShowAt(o, second, start, later);
      NoNewLossesTransitive(old(views), seen, views);
      placed := if ok then Some(second) else None;
    }

    /** The first manifest of the artifact. */
    method WriteFirst(o: Order, path: Option<string>, ghost start: Making, ghost moves: seq<Move>, ghost stage: Stage)
      returns (ghost later: seq<Move>)
      requires Valid() && o.id !in manifests && RunTo(o, start, moves) == Some(Now(path, stage)) && Undo !in moves
      requires stage == Shown || (stage == Began && o.data.None?)
      requires o.data.Some? ==> (o.id, 1) in archive && archive[(o.id, 1)] == o.data.value
      requires path.Some? ==> OwnPlace(views, path.value)
      modifies `manifests, `vault, `views, `visits
      ensures Valid() && NoNewLosses(old(views), views) && Undo !in later
        && RunTo(o, start, later) == Some(Now(path, Written))
      ensures manifests == old(manifests)[o.id := FirstManifest(path, o.data, o.url)] && Grew(old(manifests), manifests)
      ensures old(visits) <= visits && (visits == old(visits) ==> vault == old(vault))
      ensures path.Some? ==> OwnPlace(views, path.value)
    {
      hide ManifestsOk, LossesExplained, NoNewLosses, OwnPlace, Recorded, FirstManifest, Grew, After, Enabled, RunTo;
      later := Meanwhile(o, start, moves, path, stage);
      ghost var seen := views;
      WriteGives(o, Now(path, stage));
      RunMore(o, start, later, Now(path, stage), Write);
      NewManifestOk(archive, manifests, o.id, o.data, o.url, path);
      Reflexive(views);
      AccountStays(views, manifests, views, manifests[o.id := FirstManifest(path, o.data, o.url)]);
      manifests := manifests[o.id := FirstManifest(path, o.data, o.url)];
      later := later + [Write];
      later := Meanwhile(o, start, later, path, Written);
      NoNewLossesTransitive(old(views), seen, views);
    }

    /** A creation that cannot go on: it is cut short, or undone. */
    method GiveUp(o: Order, crashed: bool, path: Option<string>, ghost start: Making, ghost first: seq<View>,
                  ghost moves: seq<Move>, ghost stage: Stage)
      returns (outcome: Outcome, ghost later: seq<Move>)
      requires Valid() && RunTo(o, start, moves) == Some(Now(path, stage)) && Undo !in moves
      requires stage in {Began, Kept, Shown, Written} && start.stage == Began && start.copy == None
      requires o.id !in start.manifests && (forall k | k in start.archive :: k.0 != o.id)
      requires ManifestsOk(start.archive, start.manifests)
      requires LossesExplained(first, start.manifests) && NoNewLosses(first, views)
      requires path.Some? ==> OwnPlace(views, path.value)
      modifies `archive, `manifests, `vault, `views, `visits
      ensures Valid() && outcome == if crashed then Ended else Failed
      ensures old(visits) <= visits
      ensures !crashed && path.Some? ==> path.value !in vault
      ensures RunTo(o, start, later) == Some(Now(path, if crashed then Crashed else Undone))
      ensures if crashed then manifests == old(manifests) else manifests == start.manifests && archive == start.archive
    {
      hide ManifestsOk, LossesExplained, NoNewLosses, OwnPlace, Recorded, After, Enabled, RunTo;
      StopGives(o, Now(path, stage));
      if crashed {
        RunMore(o, start, moves, Now(path, stage), Crash);
        return Ended, moves + [Crash];
      }
      RunMore(o, start, moves, Now(path, stage), Break);
      later := moves + [Break];
      ghost var seen := views;
      later := Meanwhile(o, start, later, path, Failing);
      NoNewLossesTransitive(first, seen, views);
      UndoRestores(o, start, later, Now(path, Failing));
      archive, manifests := WithoutId(archive, o.id), manifests - {o.id};
      GrewSelf(manifests);
      AccountStays(first, manifests, views, manifests);
      if path.Some? {
        SetAt(path.value, None, ByUndoing);
      }
      return Failed, later + [Undo];
    }

    /**
     A new artifact, as one run of the machine: its bytes, its copy under the first or the second
     name, its manifest, its mirrored record. Where it fails it leaves nothing of its own, and
     deletes the copy it placed without looking at it. `afterwards` is what happens once it is there.
     */
    method CreateNew(o: Order, first: string, second: string, afterwards: Luck)
      returns (outcome: Outcome, path: Option<string>, ghost moves: seq<Move>)
      requires Valid() && o.id !in manifests && forall k | k in archive :: k.0 != o.id
      modifies this
      ensures Valid() && Grew(old(manifests), manifests) && outcome != Refused
      ensures RunTo(o, old(Now(None, Began)), moves) ==
        Some(Now(path, match outcome case Done => Complete case Failed => Undone case _ => Crashed))
      ensures outcome == Done ==>
        && manifests == old(manifests)[o.id := FirstManifest(path, o.data, o.url)]
        && archive == (if o.data.Some? then old(archive)[(o.id, 1) := o.data.value] else old(archive))
        && (path.Some? <==> o.data.Some?) && (path.Some? ==> path.value in {first, second})
      ensures old(visits) <= visits
      ensures visits == old(visits) && afterwards == Fine && outcome != Done ==>
        o.data.Some? && FreeOf(old(vault), first, second).None?
      ensures visits == old(visits) && outcome == Done && o.data.Some? ==>
        path == FreeOf(old(vault), first, second) && vault == old(vault)[path.value := o.data.value]
      ensures path.Some? && afterwards == Fault ==> outcome == Failed && path.value !in vault
      ensures outcome == Failed ==> manifests == old(manifests) && archive == old(archive)
      ensures outcome == Ended ==>
        manifests == old(manifests) || manifests == old(manifests)[o.id := FirstManifest(path, o.data, o.url)]
    {
      hide ManifestsOk, LossesExplained, NoNewLosses, OwnPlace, Recorded, FirstManifest, Grew, After, Enabled, RunTo,
        FreeOf, Same, GoneAt, WithoutId;
      path, moves := None, [];
      GrewSelf(manifests);
      ghost var start, stage := Now(None, Began), Began;
      NoMoves(o, start);
      Reflexive(views);
      var luck := Chance();
      if luck == Fine && o.data.Some? {
        path, moves := KeepAndShow(o, first, second, start, moves);
        stage := if path.Some? then Shown else Kept;
        luck := afterwards;
        if path.None? && luck == Fine {
          luck := Fault;
        }
      }
      if luck == Fine {
        ghost var seen := views;
        moves := WriteFirst(o, path, start, moves, stage);
        NoNewLossesTransitive(old(views), seen, views);
        stage := Written;
        luck := Chance();
        if luck == Fine {
          StopGives(o, Now(path, stage));
          RunMore(o, start, moves, Now(path, stage), Finish);
          return Done, path, moves + [Finish];
        }
      }
      outcome, moves := GiveUp(o, luck == End, path, start, old(views), moves, stage);
    }

    // ----- Revising -----

    /** Devices at work during a revision. */
    method WhileRevising(o: Order, ghost number: nat, ghost start: Making, ghost moves: seq<Move>,
                         ghost copy: Option<string>, ghost stage: Stage)
      returns (ghost later: seq<Move>)
      requires Valid() && RevisedTo(o, number, start, moves) == Some(Now(copy, stage))
      modifies `vault, `views, `visits
      ensures Valid() && RevisedTo(o, number, start, later) == Some(Now(copy, stage))
      ensures old(visits) <= visits && (visits == old(visits) ==> vault == old(vault))
    {
      hide LossesExplained, NoNewLosses, ManifestsOk;
      Devices();
      later := moves + [Device(vault)];
      RevisedMore(o, number, start, moves, old(Now(copy, stage)), Device(vault));
    }

    /**
     Make the copy the new revision: in place while it still is the archived bytes it showed, at its
     place if it is gone, and beside it if a device changed it.
     */
    method BringBrowseCurrent(o: Order, beside: string) returns (path: Option<string>)
      requires Valid() && o.id in manifests && o.data.Some?
      modifies `vault, `views
      ensures Valid()
      ensures path.Some? ==>
        ShowsAt(o, old(Now(None, Kept)), path.value) && vault == old(vault)[path.value := o.data.value]
      ensures path.Some? && path.value in old(vault) ==>
        path == manifests[o.id].path && Recorded(manifests, old(vault)[path.value])
      ensures path.None? ==> vault == old(vault) && beside in old(vault)
      ensures path == CopyPlace(old(vault), manifests[o.id], beside)
    {
      hide ManifestsOk, LossesExplained, NoNewLosses, Recorded;
      var m := manifests[o.id];
      CurrentIsRecorded(archive, manifests, o.id);
      var previous := CurrentRevision(m).value.data;
      if m.path.Some? && m.path.value in vault && Some(vault[m.path.value]) == previous {
        SetAt(m.path.value, Some(o.data.value), ByRevising);
        return m.path;
      }
      if m.path.Some? && m.path.value !in vault {
        SetAt(m.path.value, Some(o.data.value), ByRevising);
        return m.path;
      }
      var placed := Place(beside, o.data.value, ByRevising);
      return if placed then Some(beside) else None;
    }

    /** Archive the bytes of the next revision and bring the copy current. */
    method ShowNext(o: Order, number: nat, beside: string, ghost start: Making, ghost moves: seq<Move>)
      returns (path: Option<string>, ghost later: seq<Move>)
      requires Valid() && o.id in manifests && o.data.Some? && number == manifests[o.id].current + 1
        && Key(o, number) !in archive
      requires RevisedTo(o, number, start, moves) == Some(Now(None, Began))
      modifies `archive, `vault, `views, `visits
      ensures Valid() && archive == old(archive)[Key(o, number) := o.data.value]
      ensures RevisedTo(o, number, start, later) == Some(Now(path, if path.Some? then Shown else Kept))
      ensures old(visits) <= visits && (visits == old(visits) ==>
        && path == CopyPlace(old(vault), manifests[o.id], beside)
        && vault == if path.Some? then old(vault)[path.value := o.data.value] else old(vault))
    {
      hide ManifestsOk, LossesExplained, Recorded, CurrentRevision, RevisedTo, ShowsAt;
      NextFile(archive, manifests, o.id, o.data.value);
      RevisedMore(o, number, start, moves, Now(None, Began), Keep);
      archive := archive[Key(o, number) := o.data.value];
      later := moves + [Keep];
      later := WhileRevising(o, number, start, later, None, Kept);
      path := None;
      var luck := Chance();
      if luck == Fine {
        ghost var before := Now(None, Kept);
        path := BringBrowseCurrent(o, beside);
        if path.Some? {
          RevisedMore(o, number, start, later, before, Show(path.value));
          later := later + [Show(path.value)];
        }
      }
      later := WhileRevising(o, number, start, later, path, if path.Some? then Shown else Kept);
    }

    /** A revision that cannot go on is cut short, or fails and takes back what it archived. */
    method StopRevising(o: Order, number: nat, crashed: bool, kept: bool, ghost copy: Option<string>,
                        ghost start: Making, ghost moves: seq<Move>, ghost stage: Stage)
      returns (outcome: Outcome, ghost later: seq<Move>, ghost last: Stage)
      requires Valid() && o.id in manifests && number == manifests[o.id].current + 1
      requires RevisedTo(o, number, start, moves) == Some(Now(copy, stage)) && stage in {Began, Kept, Shown}
      requires kept <==> stage != Began
      modifies `archive
      ensures Valid() && outcome == if crashed then Ended else Failed
      ensures RevisedTo(o, number, start, later) == Some(Now(copy, last))
      ensures last == if crashed then Crashed else if stage == Began then Reported else Undone
      ensures archive == if !crashed && stage != Began then WithoutKey(old(archive), o, number) else old(archive)
    {
      hide ManifestsOk, LossesExplained, RevisedTo;
      if crashed {
        RevisedMore(o, number, start, moves, Now(copy, stage), Crash);
        return Ended, moves + [Crash], Crashed;
      }
      RevisedMore(o, number, start, moves, Now(copy, stage), Break);
      later := moves + [Break];
      if !kept {
        return Failed, later, Reported;
      }
      RevisedMore(o, number, start, later, Now(copy, Failing), Undo);
      DropNextFile(archive, manifests, o.id);
      archive := map k | k in archive && k != (o.id, number) :: archive[k];
      return Failed, later + [Undo], Undone;
    }

    /** The manifest of the next revision, and the mirrored record. */
    method WriteNext(o: Order, number: nat, path: Option<string>, ghost start: Making, ghost moves: seq<Move>,
                     ghost stage: Stage)
      returns (outcome: Outcome, ghost later: seq<Move>, ghost last: Stage)
      requires Valid() && o.id in manifests && number == manifests[o.id].current + 1
      requires RevisedTo(o, number, start, moves) == Some(Now(path, stage))
      requires stage == Shown || (stage == Began && o.data.None?)
      requires o.data.Some? ==> Key(o, number) in archive && archive[Key(o, number)] == o.data.value
      modifies `manifests, `visits
      ensures Valid() && outcome in {Done, Failed, Ended}
      ensures var m := old(manifests)[o.id];
        manifests == old(manifests)[o.id := WithRevision(m, o.data, o.url, if path.Some? then path else m.path)]
      ensures Grew(old(manifests), manifests)
      ensures RevisedTo(o, number, start, later) == Some(Now(path, last))
      ensures last == match outcome case Done => Complete case Failed => Reported case _ => Crashed
      ensures old(visits) <= visits && (visits == old(visits) ==> outcome == Done)
    {
      hide ManifestsOk, LossesExplained, RevisedTo, WithRevision, Grew, NoNewLosses;
      var m := manifests[o.id];
      var place := if path.Some? then path else m.path;
      RevisedMore(o, number, start, moves, Now(path, stage), Write);
      RevisionOk(archive, manifests, o.id, o.data, o.url, place);
      Reflexive(views);
      AccountStays(views, manifests, views, manifests[o.id := WithRevision(m, o.data, o.url, place)]);
      manifests := manifests[o.id := WithRevision(m, o.data, o.url, place)];
      later := moves + [Write];
      var luck := Chance();
      match luck
      case Fine =>
        RevisedMore(o, number, start, later, Now(path, Written), Finish);
        return Done, later + [Finish], Complete;
      case Fault =>
        RevisedMore(o, number, start, later, Now(path, Written), Break);
        return Failed, later + [Break], Reported;
      case End =>
        RevisedMore(o, number, start, later, Now(path, Written), Crash);
        return Ended, later + [Crash], Crashed;
    }

    /**
     One more revision, as one run of the machine: its bytes in the archive first, then the copy, then
     the manifest. Bytes an earlier attempt left under its number are nothing it touches. `afterwards`
     is what happens once the copy was brought current.
     */
    method AddRevision(o: Order, beside: string, afterwards: Luck)
      returns (outcome: Outcome, ghost moves: seq<Move>, ghost copy: Option<string>, ghost stage: Stage)
      requires Valid() && o.id in manifests
      modifies this
      ensures Valid() && Grew(old(manifests), manifests)
      ensures RevisedTo(o, old(manifests)[o.id].current + 1, old(Now(None, Began)), moves) == Some(Now(copy, stage))
      ensures match outcome
              case Done => stage == Complete
              case Failed => stage in {Undone, Reported}
              case Ended => stage == Crashed
              case Refused =>
                moves == [] && copy.None? && o.data.Some? && (o.id, old(manifests)[o.id].current + 1) in archive
      ensures manifests == old(manifests) || exists path ::
        && manifests == old(manifests)[o.id := WithRevision(old(manifests)[o.id], o.data, o.url, path)]
        && (o.data.None? ==> path == old(manifests)[o.id].path)
      ensures copy.Some? && afterwards == Fault ==> stage == Undone
      ensures outcome == Done ==> manifests != old(manifests)
      ensures outcome == Refused <==> o.data.Some? && (o.id, old(manifests)[o.id].current + 1) in old(archive)
      ensures outcome == Refused ==> manifests == old(manifests) && archive == old(archive) && vault == old(vault)
      ensures outcome == Done ==>
        && manifests == old(manifests)[o.id := manifests[o.id]] && o.id in manifests
        && OneMore(old(manifests)[o.id], manifests[o.id], o.data, o.url)
        && archive == (if o.data.Some? then old(archive)[(o.id, |manifests[o.id].revisions|) := o.data.value]
                       else old(archive))
        && (copy.Some? <==> o.data.Some?) && (copy.Some? ==> manifests[o.id].path == copy)
      ensures old(visits) <= visits
      ensures visits == old(visits) && afterwards == Fine && outcome in {Failed, Ended} ==>
        o.data.Some? && CopyPlace(old(vault), old(manifests)[o.id], beside).None?
      ensures visits == old(visits) && outcome == Done && o.data.Some? ==>
        copy == CopyPlace(old(vault), old(manifests)[o.id], beside) && vault == old(vault)[copy.value := o.data.value]
      ensures outcome == Failed && manifests == old(manifests) ==> archive == old(archive)
    {
      hide ManifestsOk, LossesExplained, Recorded, WithRevision, CurrentRevision, Grew, RevisedTo,
        MayRevise, Revise, Same, GoneAt;
      GrewSelf(manifests);
      ghost var start := Now(None, Began);
      NoRevision(o, manifests[o.id].current + 1, start);
      var number := manifests[o.id].current + 1;
      moves, copy, stage := [], None, Began;
      var path: Option<string>, kept := None, false;
      if o.data.Some? && (o.id, number) in archive {
        return Refused, moves, copy, stage;
      }
      var luck := Chance();
      if luck == Fine && o.data.Some? {
        path, moves := ShowNext(o, number, beside, start, moves);
        kept := true;
        copy, stage := path, if path.Some? then Shown else Kept;
        luck := afterwards;
        if path.None? && luck == Fine {
          luck := Fault;
        }
      }
      if luck != Fine {
        outcome, moves, stage := StopRevising(o, number, luck == End, kept, copy, start, moves, stage);
        if stage == Undone {
          assert archive == old(archive);
        }
        return;
      }
      CurrentIsRecorded(archive, manifests, o.id);
      WithRevisionIsOneMore(manifests[o.id], o.data, o.url, if path.Some? then path else manifests[o.id].path);
      RevisionDiffers(manifests[o.id], o.data, o.url, if path.Some? then path else manifests[o.id].path);
      outcome, moves, stage := WriteNext(o, number, path, start, moves, stage);
    }

    // ----- Retiring -----

    /** Remove an artifact: its copy goes only while it is the archived bytes. */
    method Retire(id: string) returns (outcome: Outcome)
      requires Valid() && id in manifests
      modifies `manifests, `vault, `views, `visits
      ensures Valid() && Grew(old(manifests), manifests)
      ensures old(views) <= views
      ensures old(visits) <= visits
      ensures old(manifests)[id].removed <==> outcome == Refused
      ensures outcome in {Failed, Ended} ==> visits != old(visits)
      ensures visits == old(visits) && outcome == Done ==>
        vault == if Shows(old(vault), old(manifests)[id]) then old(vault) - {old(manifests)[id].path.value}
                 else old(vault)
      ensures outcome == Refused ==> manifests == old(manifests) && vault == old(vault)
      ensures outcome == Done ==> manifests == old(manifests)[id := old(manifests)[id].(removed := true)]
      ensures outcome != Done ==>
        manifests == old(manifests) || manifests == old(manifests)[id := old(manifests)[id].(removed := true)]
      ensures forall k: nat, p | |old(views)| <= k && GoneAt(views, k, p) ::
        var m := old(manifests)[id];
        m.path == Some(p) && m.revisions != [] && Some(views[k - 1].vault[p]) == m.revisions[|m.revisions| - 1].data
    {
      hide ManifestsOk, LossesExplained, NoNewLosses, Recorded, WellNumbered, Grew;
      GrewSelf(manifests);
      var m := manifests[id];
      if m.removed {
        return Refused;
      }
      CurrentIsRecorded(archive, manifests, id);
      var current := CurrentRevision(m).value.data;
      if m.path.Some? && m.path.value in vault && Some(vault[m.path.value]) == current {
        SetAt(m.path.value, None, ByRetiring);
      }
      Devices();
      var luck := Chance();
      if luck == Fine {
        RemovedOk(archive, manifests, id);
        Reflexive(views);
        AccountStays(views, manifests, views, manifests[id := m.(removed := true)]);
        manifests := manifests[id := m.(removed := true)];
        luck := Chance();
      }
      return if luck == Fine then Done else if luck == Fault then Failed else Ended;
    }

    // ----- Putting a moved copy back -----

    /** The walk comes to a path; devices were at work meanwhile. */
    method LookAt(here: string, ghost found: map<string, Option<Bytes>>, ghost first: nat)
      returns (ghost later: map<string, Option<Bytes>>)
      requires Valid() && first < |views| && forall p | p in found :: FoundIn(views, first, p, found[p])
      modifies `vault, `views, `visits
      ensures Valid() && old(views) <= views
      ensures old(visits) <= visits && (visits == old(visits) ==> vault == old(vault))
      ensures later == found[here := if here in vault then Some(vault[here]) else None]
      ensures forall p | p in later :: FoundIn(views, first, p, later[p])
    {
      hide ManifestsOk, LossesExplained, NoNewLosses;
      Devices();
      ViewsLater(found, old(views), views, first);
      later := found[here := if here in vault then Some(vault[here]) else None];
      assert FoundIn(views, first, here, later[here]);
    }

    /**
     Put a moved or renamed copy back: the first file, outside the copies of others and not older
     than the revision, that is exactly the archived bytes. Devices are at work all the while.
     `Absent` is answered only when every such file was read and was something else.
     */
    method RestoreMovedCopy(id: string, candidates: set<string>, older: set<string>, unreadable: set<string>)
      returns (moved: Moved, ghost found: map<string, Option<Bytes>>)
      requires Valid() && id in manifests && manifests[id].path.Some? && manifests[id].path.value !in candidates
      modifies `vault, `views, `visits
      ensures Valid() && old(views) <= views
      ensures forall p | p in found :: FoundIn(views, |old(views)| - 1, p, found[p])
      ensures old(visits) <= visits
      ensures visits == old(visits) && moved == Restored ==> exists p ::
        && p in candidates && IsCopy(old(vault), manifests[id], older, unreadable, p)
        && vault == old(vault)[manifests[id].path.value := old(vault)[p]] - {p}
      ensures visits == old(visits) && moved != Absent ==>
        exists p :: p in candidates && MayBeCopy(old(vault), manifests[id], older, unreadable, p)
      ensures visits == old(visits) && moved != Restored ==>
        && vault == old(vault)
        && ((forall p | p in candidates :: !IsCopy(old(vault), manifests[id], older, unreadable, p))
            || manifests[id].path.value in old(vault))
      ensures var current := manifests[id].revisions[|manifests[id].revisions| - 1].data;
        && (moved == Absent <==> (
              && found.Keys == candidates
              && forall p | p in candidates && found[p].Some? && p !in older ::
                p !in unreadable && found[p] != current))
        && (moved == Restored ==> current.Some? && FoundIn(views, |old(views)|, manifests[id].path.value, current))
    {
      hide ManifestsOk, LossesExplained, NoNewLosses, Recorded, WellNumbered, FoundIn, WalkTo, Same, GoneAt, Archived;
      assert |old(views)| > 0;
      var filed := manifests[id].path.value;
      CurrentIsRecorded(archive, manifests, id);
      var current := CurrentRevision(manifests[id]).value.data;
      var todo, complete := candidates, true;
      found := map[];
      while todo != {}
        invariant todo <= candidates && found.Keys == candidates - todo && Valid() && old(views) <= views
        invariant forall p | p in found :: FoundIn(views, |old(views)| - 1, p, found[p])
        invariant old(visits) <= visits && (visits == old(visits) ==>
          && vault == old(vault)
          && forall p | p in candidates - todo :: !IsCopy(old(vault), manifests[id], older, unreadable, p))
        invariant visits == old(visits) && !complete ==>
          exists p :: p in candidates && MayBeCopy(old(vault), manifests[id], older, unreadable, p)
        invariant complete <==> forall p | p in found && found[p].Some? && p !in older :: p !in unreadable
        invariant forall p | p in found && found[p].Some? && p !in older && p !in unreadable :: found[p] != current
        decreases todo
      {
        var here :| here in todo;
        todo := todo - {here};
        found := LookAt(here, found, |old(views)| - 1);
        if here !in vault || here in older {
          continue;
        }
        if here in unreadable {
          complete := false;
          assert visits == old(visits) ==> MayBeCopy(old(vault), manifests[id], older, unreadable, here);
          continue;
        }
        if Some(vault[here]) != current {
          continue;
        }
        assert visits == old(visits) ==> MayBeCopy(old(vault), manifests[id], older, unreadable, here);
        ghost var was := views;
        ghost var steps, pace;
        var luck := Chance();
        moved, steps, pace := PutBack(Errand(filed, here, current.value), luck);
        ViewsLater(found, was, views, |old(views)| - 1);
        if moved == Restored {
          LaterFound(views, |was|, |old(views)|, filed, current);
        }
        return;
      }
      assert found.Keys == candidates;
      moved := if complete then Absent else Unknown;
    }

    /** Devices at work while a copy is put back; the file that was read is nothing the store touches. */
    method WhilePuttingBack(e: Errand, ghost start: Walk, ghost steps: seq<Step>, ghost pace: Pace)
      returns (ghost later: seq<Step>)
      requires Valid() && WalkTo(e, start, steps) == Some(Walk(vault, pace)) && ReadPlace(views, manifests, e.here)
      modifies `vault, `views, `visits
      ensures Valid() && views == old(views) + [View(vault, ByDevice)]
      ensures old(visits) <= visits && (visits == old(visits) ==> vault == old(vault))
      ensures WalkTo(e, start, later) == Some(Walk(vault, pace)) && ReadPlace(views, manifests, e.here)
    {
      hide ManifestsOk, LossesExplained, NoNewLosses, ReadPlace;
      Devices();
      later := steps + [Others(vault)];
      WalkMore(e, start, steps, Walk(old(vault), pace), Others(vault));
      ReadPlaceKept(old(views), manifests, View(vault, ByDevice), e.here);
    }

    /**
     As one run of its machine: the bytes are read, placed, and then the file is removed as it is, if
     nothing stops that.
     */
    method PutBack(e: Errand, luck: Luck) returns (moved: Moved, ghost steps: seq<Step>, ghost pace: Pace)
      requires Valid() && Recorded(manifests, e.data) && e.filed != e.here && e.here in vault && vault[e.here] == e.data
      modifies `vault, `views, `visits
      ensures Valid() && old(views) <= views && moved in {Restored, Unknown}
      ensures moved == Restored <==> e.filed !in old(vault)
      ensures old(visits) <= visits
      ensures visits == old(visits) && luck == Fine && moved == Restored ==>
        vault == old(vault)[e.filed := e.data] - {e.here}
      ensures moved == Unknown ==> vault == old(vault)
      ensures moved == Restored ==> FoundIn(views, |old(views)|, e.filed, Some(e.data))
      ensures WalkTo(e, Walk(old(vault), Looking), steps) == Some(Walk(vault, pace))
      ensures pace in {Taken, Stopped} && (pace == Taken <==> moved == Restored && luck == Fine)
    {
      hide ManifestsOk, LossesExplained, NoNewLosses, Recorded, ReadPlace, WalkTo;
      ghost var start := Walk(vault, Looking);
      NoSteps(e, start);
      WalkMore(e, start, [], start, Find);
      steps := [] + [Find];
      JustRead(views, manifests, e.here);
      var placed := Place(e.filed, e.data, ByRestoring);
      if !placed {
        WalkMore(e, start, steps, Walk(vault, Found), Stop);
        return Unknown, steps + [Stop], Stopped;
      }
      ghost var at: nat := |views| - 1;
      WalkMore(e, start, steps, Walk(old(vault), Found), Put);
      steps := steps + [Put];
      ReadPlaceKept(old(views), manifests, View(vault, ByRestoring), e.here);
      steps := WhilePuttingBack(e, start, steps, Placed);
      if luck == Fine {
        WalkMore(e, start, steps, Walk(vault, Placed), Take);
        steps, pace := steps + [Take], Taken;
        SetAt(e.here, None, ByTaking);
      } else {
        WalkMore(e, start, steps, Walk(vault, Placed), Stop);
        steps, pace := steps + [Stop], Stopped;
      }
      assert e.filed in views[at].vault && views[at].vault[e.filed] == e.data;
      assert FoundIn(views, |old(views)|, e.filed, Some(e.data));
      return Restored, steps, pace;
    }

    /** A copy observed gone: only a recorded removal, with the bytes found nowhere else, retires the artifact. */
    method SweepGone(id: string, candidates: set<string>, older: set<string>, unreadable: set<string>,
                     commit: Option<string>)
      returns (outcome: Outcome, ghost found: map<string, Option<Bytes>>)
      requires Valid() && id in manifests && manifests[id].path.Some? && manifests[id].path.value !in candidates
      modifies `manifests, `vault, `views, `visits
      ensures Valid() && Grew(old(manifests), manifests)
      ensures old(visits) <= visits
      ensures outcome == Done ==> manifests != old(manifests)
      ensures outcome in {Failed, Ended} ==> visits != old(visits)
      ensures outcome == Refused && visits == old(visits) ==>
        || old(manifests)[id].removed || commit.None?
        || exists p :: p in candidates && MayBeCopy(old(vault), old(manifests)[id], older, unreadable, p)
      ensures manifests != old(manifests) ==>
        && commit.Some? && manifests == old(manifests)[id := old(manifests)[id].(removed := true)]
        && found.Keys == candidates && (forall p | p in found :: FoundIn(views, |old(views)| - 1, p, found[p]))
        && forall p | p in candidates && found[p].Some? && p !in older ::
             p !in unreadable && found[p] != old(manifests)[id].revisions[|old(manifests)[id].revisions| - 1].data
    {
      hide ManifestsOk, LossesExplained, Recorded, FoundIn, Grew;
      GrewSelf(manifests);
      found := map[];
      if manifests[id].removed {
        return Refused, found;
      }
      var moved;
      moved, found := RestoreMovedCopy(id, candidates, older, unreadable);
      if moved != Absent || commit.None? {
        return Refused, found;
      }
      ghost var was := views;
      outcome := Retire(id);
      ViewsLater(found, was, views, |old(views)| - 1);
    }

    // ----- Any request -----

    /** The archive holds bytes already under the number the next revision would get. */
    predicate Obstructed(known: string, data: Option<Bytes>, url: Option<string>)
      reads this
    {
      && known in manifests && data.Some? && !SameAlready(manifests[known], data, url)
      && (known, manifests[known].current + 1) in archive
    }

    /**
     The one write path: a replay, a revision of a known artifact, or a new one. Undisturbed it fails only
     where no name is free for a copy.
     */
    method StoreRevision(id: Option<string>, replay: Option<string>, newId: string, data: Option<Bytes>,
                         url: Option<string>, first: string, second: string) returns (outcome: Outcome, created: bool)
      requires Valid() && newId !in manifests && forall k | k in archive :: k.0 != newId
      requires replay.Some? ==> replay.value in manifests
      modifies this
      ensures Valid() && Grew(old(manifests), manifests)
      ensures outcome == Refused <==>
        || (id.Some? && (id.value !in old(manifests) || old(manifests)[id.value].removed))
        || (Known(id, replay).Some? && old(Obstructed(Known(id, replay).value, data, url)))
      ensures outcome == Refused || (outcome == Done && !created) ==>
        manifests == old(manifests) && archive == old(archive) && vault == old(vault)
      ensures outcome == Done ==>
        (!created <==> Known(id, replay).Some? && SameAlready(old(manifests)[Known(id, replay).value], data, url))
      ensures outcome == Done && created ==>
        match Known(id, replay)
        case None =>
          && newId in manifests && manifests == old(manifests)[newId := manifests[newId]]
          && OneMore(Manifest(None, None, 0, [], false), manifests[newId], data, url)
          && archive == (if data.Some? then old(archive)[(newId, 1) := data.value] else old(archive))
        case Some(known) =>
          && known in manifests && manifests == old(manifests)[known := manifests[known]]
          && OneMore(old(manifests)[known], manifests[known], data, url)
          && archive == (if data.Some? then old(archive)[(known, |manifests[known].revisions|) := data.value]
                         else old(archive))
      ensures outcome == Done && data.Some? ==> Recorded(manifests, data.value)
      ensures old(visits) <= visits
      ensures visits == old(visits) && outcome in {Failed, Ended} ==>
        data.Some? && match Known(id, replay)
                      case None => FreeOf(old(vault), first, second).None?
                      case Some(known) => CopyPlace(old(vault), old(manifests)[known], first).None?
    {
      hide ManifestsOk, LossesExplained, Grew, Recorded, RunTo, RevisedTo;
      created := false;
      GrewSelf(manifests);
      var known := Known(id, replay);
      if id.Some? && (id.value !in manifests || manifests[id.value].removed) {
        return Refused, false;
      }
      if known.None? {
        var path;
        ghost var moves;
        var afterwards := Chance();
        outcome, path, moves := CreateNew(Order(newId, data, url), first, second, afterwards);
        if outcome == Done && data.Some? {
          RecordedIn(manifests, newId, 0, data.value);
        }
        return outcome, true;
      }
      CurrentIsRecorded(archive, manifests, known.value);
      var m := manifests[known.value];
      var current := CurrentRevision(m).value;
      if if data.Some? then current.data == data else m.url == url {
        return Done, false;
      }
      ghost var moves, copy, stage;
      var afterwards := Chance();
      outcome, moves, copy, stage := AddRevision(Order(known.value, data, url), first, afterwards);
      if outcome == Done && data.Some? {
        RecordedIn(manifests, known.value, |m.revisions|, data.value);
      }
      return outcome, true;
    }

    /** One request, sweep or device edit, whichever comes. */
    method Anything()
      requires Valid()
      modifies this
      ensures Valid() && Grew(old(manifests), manifests)
    {
      hide ManifestsOk, LossesExplained, Recorded, Grew, FoundIn;
      GrewSelf(manifests);
      var id: string, first: string, second: string := *, *, *;
      var candidates: set<string>, older: set<string>, unreadable: set<string> := *, *, *;
      var given: Option<string>, replay: Option<string>, commit: Option<string> := *, *, *;
      var data: Option<Bytes>, url: Option<string> := *, *;
      if
      case (id !in manifests && (forall k | k in archive :: k.0 != id)
        && (replay.Some? ==> replay.value in manifests)) =>
        var outcome, created := StoreRevision(given, replay, id, data, url, first, second);
      case id in manifests =>
        var outcome := Retire(id);
      case id in manifests && manifests[id].path.Some? && manifests[id].path.value !in candidates =>
        ghost var found;
        var outcome;
        outcome, found := SweepGone(id, candidates, older, unreadable, commit);
      case true =>
        Devices();
    }

    /**
     Any number of them: what was on record under a number before is on record under it afterwards,
     the archive holds those very bytes, and of what the store ever took from the vault only the two
     kinds named are not on record.
     */
    method Serve(n: nat)
      requires Valid()
      modifies this
      ensures Valid() && Grew(old(manifests), manifests) && LossesExplained(views, manifests)
      ensures forall id, k: nat | id in old(manifests) && k < |old(manifests)[id].revisions| ::
        var was := old(manifests)[id].revisions[k].data;
        was.Some? ==> (id, k + 1) in archive && archive[(id, k + 1)] == was.value
    {
      hide LossesExplained, Recorded;
      GrewSelf(manifests);
      ghost var first := manifests;
      for i := 0 to n
        invariant Valid() && Grew(first, manifests)
      {
        ghost var before := manifests;
        Anything();
        GrewTransitive(first, before, manifests);
      }
      forall id, k: nat | id in first && k < |first[id].revisions| && first[id].revisions[k].data.Some?
        ensures (id, k + 1) in archive && archive[(id, k + 1)] == first[id].revisions[k].data.value
      {
        RecordedBytesStay(archive, manifests, first, id, k);
      }
    }
  }

  lemma WithRevisionIsOneMore(m: Manifest, data: Option<Bytes>, url: Option<string>, path: Option<string>)
    requires m.current == |m.revisions| && (data.None? ==> path == m.path)
    ensures OneMore(m, WithRevision(m, data, url, path), data, url) && WithRevision(m, data, url, path).path == path
  {
  }

  lemma Reflexive(views: seq<View>)
    ensures NoNewLosses(views, views)
  {
  }

  lemma Account(views: seq<View>, v: View, manifests: map<string, Manifest>)
    requires views != []
    requires v.actor.ByDevice? || forall p | p in Latest(views) :: Same(Latest(views), v.vault, p)
    ensures NoNewLosses(views, views + [v])
    ensures LossesExplained(views, manifests) ==> LossesExplained(views + [v], manifests)
  {
    hide NoNewLosses, LossesExplained, Same, Grew;
    NothingGone(views, v);
    GrewSelf(manifests);
    if LossesExplained(views, manifests) {
      AccountStays(views, manifests, views + [v], manifests);
    }
  }

  lemma NothingThere(views: seq<View>, v: View, path: string)
    requires views != [] && path !in Latest(views)
    ensures !GoneAt(views + [v], |views|, path)
  {
    assert (views + [v])[|views| - 1] == views[|views| - 1];
  }

  lemma JustCreated(views: seq<View>, v: View, path: string)
    requires views != [] && v.actor.ByCreating? && path !in Latest(views) && path in v.vault
    ensures OwnPlace(views + [v], path)
  {
    assert (views + [v])[|views| - 1] == views[|views| - 1];
    assert CreatedAt(views + [v], |views|, path);
  }

  lemma JustRead(views: seq<View>, manifests: map<string, Manifest>, path: string)
    requires views != [] && path in Latest(views) && Recorded(manifests, Latest(views)[path])
    ensures ReadPlace(views, manifests, path)
  {
    assert OnRecordAt(views, manifests, |views| - 1, path);
  }

  ghost predicate FoundIn(views: seq<View>, first: nat, p: string, found: Option<Bytes>) {
    exists k: nat :: first <= k < |views| && found == if p in views[k].vault then Some(views[k].vault[p]) else None
  }

  lemma LaterFound(views: seq<View>, from: nat, first: nat, p: string, found: Option<Bytes>)
    requires first <= from && FoundIn(views, from, p, found)
    ensures FoundIn(views, first, p, found)
  {
  }

  lemma ViewsLater(found: map<string, Option<Bytes>>, before: seq<View>, after: seq<View>, first: nat)
    requires before <= after && forall p | p in found :: FoundIn(before, first, p, found[p])
    ensures forall p | p in found :: FoundIn(after, first, p, found[p])
  {
    forall p | p in found ensures FoundIn(after, first, p, found[p]) {
      var k: nat :| first <= k < |before| && found[p] == if p in before[k].vault then Some(before[k].vault[p])
        else None;
      assert after[k] == before[k];
    }
  }

  lemma NoMoves(o: Order, s: Making)
    ensures RunTo(o, s, []) == Some(s)
  {
  }

  lemma KeepGives(o: Order, s: Making)
    requires Enabled(o, s, Keep)
    ensures After(o, s, Keep) == s.(archive := s.archive[(o.id, 1) := o.data.value], stage := Kept)
  {
  }

  lemma WriteGives(o: Order, s: Making)
    requires s.stage == Shown || (s.stage == Began && o.data.None?)
    ensures Enabled(o, s, Write) && After(o, s, Write) ==
      s.(manifests := s.manifests[o.id := FirstManifest(s.copy, o.data, o.url)], stage := Written)
  {
  }

  lemma StopGives(o: Order, s: Making)
    requires s.stage in {Began, Kept, Shown, Written}
    ensures Enabled(o, s, Break) && After(o, s, Break) == s.(stage := Failing)
    ensures Enabled(o, s, Crash) && After(o, s, Crash) == s.(stage := Crashed)
    ensures s.stage == Written ==> Enabled(o, s, Finish) && After(o, s, Finish) == s.(stage := Complete)
  {
  }

  lemma UndoRestores(o: Order, start: Making, moves: seq<Move>, t: Making)
    requires RunTo(o, start, moves) == Some(t) && t.stage == Failing && start.stage == Began && start.copy == None
    requires o.id !in start.manifests && forall k | k in start.archive :: k.0 != o.id
    ensures RunTo(o, start, moves + [Undo]) == Some(t.(archive := start.archive, manifests := start.manifests,
      vault := if t.copy.Some? then t.vault - {t.copy.value} else t.vault, stage := Undone))
    ensures WithoutId(t.archive, o.id) == start.archive && t.manifests - {o.id} == start.manifests
  {
    RunMore(o, start, moves, t, Undo);
    RunOwn(o, start, moves);
  }
}
