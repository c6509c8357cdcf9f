/**
 One source page over any number of filing attempts, each of which may stop after any of its steps,
 while devices edit files and the source gains revisions: when the page's old place is cleared.
 */
module FilingPages {
  import opened Results
  import opened FilingPaths

  datatype Stage = Resting | Planned | Placed | Named

  /** The vault, the manifest, and the entry of the attempt under way with the page it read. */
  datatype Desk = Desk(files: map<string, File>, manifest: Manifest, from: string, to: string, seen: Option<File>,
                       stage: Stage)

  datatype Move =
    | Begin(month: string)
    | Place
    | Name
    | Clear
    | Stop
    | Device(files: map<string, File>)
    | Intake(current: nat)

  predicate Enabled(sources: string, id: string, s: Desk, a: Move) {
    match a
    case Begin(month) => s.stage == Resting && IsMonth(month)
    case Place =>
      && s.stage == Planned && ReadFrom(s.files, id, s.manifest.current, s.from, s.to).Some?
      && (s.from == s.to || s.to !in s.files
          || s.files[s.to] == ReadFrom(s.files, id, s.manifest.current, s.from, s.to).value.(reviewed := true))
    case Name => s.stage == Placed
    case Clear => s.stage == Named && (s.from == s.to || s.from !in s.files || Some(s.files[s.from]) == s.seen)
    case Stop => s.stage != Resting
    case Device(files) => PagesStay(s.files, files)
    case Intake(_) => true
  }

  function After(sources: string, id: string, s: Desk, a: Move): Desk
    requires Enabled(sources, id, s, a)
  {
    match a
    case Begin(month) =>
      s.(from := s.manifest.projection, to := FiledPath(sources, s.manifest.filed, id, month), seen := None,
        stage := Planned)
    case Place =>
      var page := ReadFrom(s.files, id, s.manifest.current, s.from, s.to).value;
      s.(files := s.files[s.to := page.(reviewed := true)], seen := Some(page), stage := Placed)
    case Name => s.(manifest := Manifest(s.manifest.current, s.to, s.to), stage := Named)
    case Clear => s.(files := if s.from != s.to then s.files - {s.from} else s.files, stage := Resting)
    case Stop => s.(stage := Resting)
    case Device(files) => s.(files := files)
    case Intake(current) => s.(manifest := s.manifest.(current := current))
  }

  function RunTo(sources: string, id: string, s: Desk, moves: seq<Move>): Option<Desk>
    decreases |moves|
  {
    if moves == [] then Some(s)
    else
      match RunTo(sources, id, s, moves[..|moves| - 1])
      case None => None
      case Some(t) =>
        if Enabled(sources, id, t, moves[|moves| - 1]) then Some(After(sources, id, t, moves[|moves| - 1])) else None
  }

  lemma RunMore(sources: string, id: string, s: Desk, moves: seq<Move>, t: Desk, a: Move)
    requires RunTo(sources, id, s, moves) == Some(t) && Enabled(sources, id, t, a)
    ensures RunTo(sources, id, s, moves + [a]) == Some(After(sources, id, t, a))
  {
    assert (moves + [a])[..|moves|] == moves;
  }

  lemma PlaceRuns(sources: string, id: string, s: Desk, moves: seq<Move>, t: Desk)
    requires RunTo(sources, id, s, moves) == Some(t) && Enabled(sources, id, t, Place)
    ensures var page := ReadFrom(t.files, id, t.manifest.current, t.from, t.to).value;
      RunTo(sources, id, s, moves + [Place]) ==
        Some(t.(files := t.files[t.to := page.(reviewed := true)], seen := Some(page), stage := Placed))
  {
    RunMore(sources, id, s, moves, t, Place);
  }

  lemma NameRuns(sources: string, id: string, s: Desk, moves: seq<Move>, t: Desk)
    requires RunTo(sources, id, s, moves) == Some(t) && t.stage == Placed
    ensures RunTo(sources, id, s, moves + [Name]) ==
      Some(t.(manifest := Manifest(t.manifest.current, t.to, t.to), stage := Named))
  {
    RunMore(sources, id, s, moves, t, Name);
  }

  lemma ClearRuns(sources: string, id: string, s: Desk, moves: seq<Move>, t: Desk)
    requires RunTo(sources, id, s, moves) == Some(t) && t.stage == Named
    requires t.from == t.to || t.from !in t.files || Some(t.files[t.from]) == t.seen
    ensures RunTo(sources, id, s, moves + [Clear]) ==
      Some(t.(files := if t.from != t.to then t.files - {t.from} else t.files, stage := Resting))
  {
    RunMore(sources, id, s, moves, t, Clear);
  }

  lemma StopRuns(sources: string, id: string, s: Desk, moves: seq<Move>, t: Desk)
    requires RunTo(sources, id, s, moves) == Some(t) && t.stage != Resting
    ensures RunTo(sources, id, s, moves + [Stop]) == Some(t.(stage := Resting))
  {
    RunMore(sources, id, s, moves, t, Stop);
  }

  lemma DeviceRuns(sources: string, id: string, s: Desk, moves: seq<Move>, t: Desk, files: map<string, File>)
    requires RunTo(sources, id, s, moves) == Some(t) && PagesStay(t.files, files)
    ensures RunTo(sources, id, s, moves + [Device(files)]) == Some(t.(files := files))
  {
    RunMore(sources, id, s, moves, t, Device(files));
  }

  /** A page that is still where it was before its source was ever filed there, ready to be filed. */
  ghost predicate Unfiled(sources: string, id: string, s: Desk, p: string) {
    && s.stage == Resting && s.manifest.projection == p && ValidId(id)
    && PageOf(s.files, p, id) && s.files[p].revision == s.manifest.current && s.files[p].managed
    && forall month | IsMonth(month) ::
         FiledPath(sources, s.manifest.filed, id, month) != p
           && FiledPath(sources, s.manifest.filed, id, month) !in s.files
  }

  /** Neither devices nor the intake of sources had a part in it. */
  predicate Quiet(moves: seq<Move>) {
    forall a | a in moves :: !a.Device? && !a.Intake?
  }

  // ----- The manifest names the page's new place: the old one is never cleared -----

  /** The manifest names a place where the page stays, other than `p`, and the attempt under way moves nothing. */
  ghost predicate NamedElsewhere(sources: string, id: string, s: Desk, p: string) {
    && PageOf(s.files, p, id)
    && s.manifest.projection == s.manifest.filed != p
    && (forall month | IsMonth(month) :: FiledPath(sources, s.manifest.filed, id, month) == s.manifest.filed)
    && (s.stage != Resting ==> s.from == s.to == s.manifest.filed)
  }

  lemma NamedElsewhereStays(sources: string, id: string, s: Desk, p: string, a: Move)
    requires NamedElsewhere(sources, id, s, p) && Enabled(sources, id, s, a)
    ensures NamedElsewhere(sources, id, After(sources, id, s, a), p)
  {
    hide FiledPath;
  }

  lemma {:induction false} OldPageOutlivesRun(sources: string, id: string, s: Desk, p: string, moves: seq<Move>)
    requires NamedElsewhere(sources, id, s, p) && RunTo(sources, id, s, moves).Some?
    ensures NamedElsewhere(sources, id, RunTo(sources, id, s, moves).value, p)
    decreases |moves|
  {
    hide NamedElsewhere, Enabled, After;
    if moves != [] {
      OldPageOutlivesRun(sources, id, s, p, moves[..|moves| - 1]);
      var t := RunTo(sources, id, s, moves[..|moves| - 1]).value;
      NamedElsewhereStays(sources, id, t, p, moves[|moves| - 1]);
    }
  }

  // ----- What attempts leave, wherever they stop -----

  /** Before the manifest is written everything is as it was, but for copies of the page at its places. */
  ghost predicate StillOld(sources: string, id: string, first: Desk, s: Desk, p: string) {
    && PageOf(first.files, p, id)
    && s.manifest == first.manifest && p in s.files && s.files[p] == first.files[p]
    && (s.stage != Resting ==> s.from == p && exists month ::
      IsMonth(month) && s.to == FiledPath(sources, first.manifest.filed, id, month))
    && s.stage != Named
    && forall month | IsMonth(month) && FiledPath(sources, first.manifest.filed, id, month) in s.files ::
         s.files[FiledPath(sources, first.manifest.filed, id, month)] == first.files[p].(reviewed := true)
  }

  /** Afterwards it names one of the page's places. */
  ghost predicate NamedPlace(sources: string, id: string, first: Desk, s: Desk) {
    && s.manifest.projection == s.manifest.filed
    && (exists month :: IsMonth(month) && s.manifest.filed == FiledPath(sources, first.manifest.filed, id, month))
    && (s.stage !in {Resting, Named} ==> s.from == s.to == s.manifest.filed)
    && (s.stage == Named ==> s.to == s.manifest.filed)
  }

  lemma PlaceStays(sources: string, id: string, filed: string, month: string, later: string)
    requires ValidId(id) && IsMonth(month) && IsMonth(later)
    ensures FiledPath(sources, FiledPath(sources, filed, id, month), id, later) == FiledPath(sources, filed, id, month)
  {
    hide FiledPath;
    assert '/' !in month && |month| == 7 && |later| == 7;
    assert '/' !in id;
    FiledPathIsStable(sources, filed, id, month, later);
  }

  lemma QuietStep(sources: string, id: string, first: Desk, s: Desk, p: string, a: Move)
    requires Unfiled(sources, id, first, p) && Enabled(sources, id, s, a) && !a.Device? && !a.Intake?
    requires StillOld(sources, id, first, s, p) || NamedPlace(sources, id, first, s)
    ensures StillOld(sources, id, first, After(sources, id, s, a), p)
      || NamedPlace(sources, id, first, After(sources, id, s, a))
  {
    hide FiledPath;
    var t := After(sources, id, s, a);
    if NamedPlace(sources, id, first, s) && a.Begin? {
      var month :| IsMonth(month) && s.manifest.filed == FiledPath(sources, first.manifest.filed, id, month);
      PlaceStays(sources, id, first.manifest.filed, month, a.month);
    }
  }

  lemma {:induction false} QuietRun(sources: string, id: string, first: Desk, moves: seq<Move>, p: string)
    requires Unfiled(sources, id, first, p) && Quiet(moves) && RunTo(sources, id, first, moves).Some?
    ensures var s := RunTo(sources, id, first, moves).value;
      StillOld(sources, id, first, s, p) || NamedPlace(sources, id, first, s)
    decreases |moves|
  {
    hide Enabled, After, NamedPlace, FiledPath;
    if moves == [] {
    } else {
      var init, a := moves[..|moves| - 1], moves[|moves| - 1];
      assert a in moves && Quiet(init);
      QuietRun(sources, id, first, init, p);
      QuietStep(sources, id, first, RunTo(sources, id, first, init).value, p, a);
    }
  }

  lemma NamedPlaceIsElsewhere(sources: string, id: string, first: Desk, s: Desk, p: string)
    requires Unfiled(sources, id, first, p) && NamedPlace(sources, id, first, s) && s.stage == Resting
      && PageOf(s.files, p, id)
    ensures NamedElsewhere(sources, id, s, p)
  {
    hide FiledPath;
    var month :| IsMonth(month) && s.manifest.filed == FiledPath(sources, first.manifest.filed, id, month);
    forall later | IsMonth(later) ensures FiledPath(sources, s.manifest.filed, id, later) == s.manifest.filed {
      PlaceStays(sources, id, first.manifest.filed, month, later);
    }
  }

  // ----- Exactly when the old place is cleared -----

  const MONTH := "2026-01"

  /** While the manifest names the old place, one attempt that is not stopped clears it. */
  lemma NextAttemptClears(sources: string, id: string, first: Desk, s: Desk, p: string) returns (moves: seq<Move>)
    requires Unfiled(sources, id, first, p) && StillOld(sources, id, first, s, p) && s.stage == Resting
    ensures RunTo(sources, id, s, moves).Some? && p !in RunTo(sources, id, s, moves).value.files
  {
    hide FiledPath, RunTo;
    assert IsMonth(MONTH);
    var s1 := After(sources, id, s, Begin(MONTH));
    assert s1.from == p != s1.to;
    var s2 := After(sources, id, s1, Place);
    var s3 := After(sources, id, s2, Name);
    var s4 := After(sources, id, s3, Clear);
    NoMoves(sources, id, s);
    assert [] + [Begin(MONTH)] == [Begin(MONTH)] && [Begin(MONTH)] + [Place] == [Begin(MONTH), Place];
    assert [Begin(MONTH), Place] + [Name] == [Begin(MONTH), Place, Name];
    assert [Begin(MONTH), Place, Name] + [Clear] == [Begin(MONTH), Place, Name, Clear];
    RunMore(sources, id, s, [], s, Begin(MONTH));
    RunMore(sources, id, s, [Begin(MONTH)], s1, Place);
    RunMore(sources, id, s, [Begin(MONTH), Place], s2, Name);
    RunMore(sources, id, s, [Begin(MONTH), Place, Name], s3, Clear);
    return [Begin(MONTH), Place, Name, Clear];
  }

  lemma NoMoves(sources: string, id: string, s: Desk)
    ensures RunTo(sources, id, s, []) == Some(s)
  {
  }

  /**
   However attempts stopped before, the old page is there after everything that may follow, further
   plans, edits and revisions, if and only if the manifest no longer names it when the last of them
   stopped: no later plan ever clears a place that the manifest does not name.
   */
  lemma OldPageStaysExactly(sources: string, id: string, first: Desk, before: seq<Move>, s: Desk, p: string)
    requires Unfiled(sources, id, first, p) && Quiet(before)
    requires RunTo(sources, id, first, before) == Some(s) && s.stage == Resting && PageOf(s.files, p, id)
    ensures (forall after | RunTo(sources, id, s, after).Some? :: p in RunTo(sources, id, s, after).value.files) <==>
            s.manifest.projection != p
  {
    hide FiledPath, RunTo;
    QuietRun(sources, id, first, before, p);
    if NamedPlace(sources, id, first, s) {
      NamedPlaceIsElsewhere(sources, id, first, s, p);
      forall after | RunTo(sources, id, s, after).Some? ensures p in RunTo(sources, id, s, after).value.files {
        OldPageOutlivesRun(sources, id, s, p, after);
      }
    } else {
      var after := NextAttemptClears(sources, id, first, s, p);
    }
  }

  /** An attempt stopped between the two: the manifest names the new place, and the old page is there. */
  lemma StoppedInBetween(sources: string, id: string, s: Desk, p: string) returns (t: Desk, before: seq<Move>)
    requires Unfiled(sources, id, s, p)
    ensures RunTo(sources, id, s, before) == Some(t) && Quiet(before) && t.stage == Resting
    ensures PageOf(t.files, p, id) && t.manifest.projection != p
  {
    hide FiledPath, RunTo;
    assert IsMonth(MONTH);
    var s1 := After(sources, id, s, Begin(MONTH));
    assert s1.from == p != s1.to;
    var s2 := After(sources, id, s1, Place);
    var s3 := After(sources, id, s2, Name);
    t := After(sources, id, s3, Stop);
    NoMoves(sources, id, s);
    assert [] + [Begin(MONTH)] == [Begin(MONTH)] && [Begin(MONTH)] + [Place] == [Begin(MONTH), Place];
    assert [Begin(MONTH), Place] + [Name] == [Begin(MONTH), Place, Name];
    assert [Begin(MONTH), Place, Name] + [Stop] == [Begin(MONTH), Place, Name, Stop];
    RunMore(sources, id, s, [], s, Begin(MONTH));
    RunMore(sources, id, s, [Begin(MONTH)], s1, Place);
    RunMore(sources, id, s, [Begin(MONTH), Place], s2, Name);
    RunMore(sources, id, s, [Begin(MONTH), Place, Name], s3, Stop);
    before := [Begin(MONTH), Place, Name, Stop];
  }
}
