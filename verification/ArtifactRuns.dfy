/**
 Creating an artifact, adding a revision and putting a moved copy back, each as a machine of single
 steps between which devices may do with the vault what they like: when bytes are lost or archived
 nowhere, over every run.
 */
module ArtifactRuns {
  import opened Results
  import opened ArtifactRecords

  // ----- A creation, step by step -----

  /** What is to be created: a file with its bytes, or a link. */
  datatype Order = Order(id: string, data: Option<Bytes>, url: Option<string>)

  datatype Stage = Began | Kept | Shown | Written | Complete | Failing | Undone | Reported | Crashed

  /** `copy` is where this creation placed a copy. */
  datatype Making = Making(archive: Archive, manifests: map<string, Manifest>, vault: map<string, Bytes>,
                           copy: Option<string>, stage: Stage)

  /** The creation's own steps, the ways it can stop, and whatever devices make of the vault. */
  datatype Move = Keep | Show(path: string) | Write | Finish | Break | Crash | Undo | Device(vault: map<string, Bytes>)

  predicate Enabled(o: Order, s: Making, a: Move) {
    match a
    case Keep => s.stage == Began && o.data.Some?
    case Show(p) => s.stage == Kept && p !in s.vault && o.data.Some?
    case Write => s.stage == Shown || (s.stage == Began && o.data.None?)
    case Finish => s.stage == Written
    case Break => s.stage in {Began, Kept, Shown, Written}
    case Crash => s.stage in {Began, Kept, Shown, Written, Failing}
    case Undo => s.stage == Failing
    case Device(_) => true
  }

  function WithoutId(archive: Archive, id: string): Archive {
    map k | k in archive && k.0 != id :: archive[k]
  }

  function After(o: Order, s: Making, a: Move): Making
    requires Enabled(o, s, a)
  {
    match a
    case Keep => s.(archive := s.archive[(o.id, 1) := o.data.value], stage := Kept)
    case Show(p) => s.(vault := s.vault[p := o.data.value], copy := Some(p), stage := Shown)
    case Write => s.(manifests := s.manifests[o.id := FirstManifest(s.copy, o.data, o.url)], stage := Written)
    case Finish => s.(stage := Complete)
    case Break => s.(stage := Failing)
    case Crash => s.(stage := Crashed)
    case Undo =>
      s.(archive := WithoutId(s.archive, o.id), manifests := s.manifests - {o.id},
         vault := if s.copy.Some? then s.vault - {s.copy.value} else s.vault, stage := Undone)
    case Device(v) => s.(vault := v)
  }

  /** Where a list of moves leads, if each of them is possible in its turn. */
  function RunTo(o: Order, s: Making, moves: seq<Move>): Option<Making>
    decreases |moves|
  {
    if moves == [] then Some(s)
    else
      match RunTo(o, s, moves[..|moves| - 1])
      case None => None
      case Some(t) => if Enabled(o, t, moves[|moves| - 1]) then Some(After(o, t, moves[|moves| - 1])) else None
  }

  lemma RunMore(o: Order, s: Making, moves: seq<Move>, t: Making, a: Move)
    requires RunTo(o, s, moves) == Some(t) && Enabled(o, t, a)
    ensures RunTo(o, s, moves + [a]) == Some(After(o, t, a))
  {
    assert (moves + [a])[..|moves|] == moves;
  }

  predicate NoDeviceAfter(moves: seq<Move>, j: nat) {
    forall n | j < n < |moves| :: !moves[n].Device?
  }

  /** Move `i` placed the copy, and move `j` is the last of any device and left other bytes there. */
  predicate LeftByDevice(o: Order, moves: seq<Move>, i: nat, j: nat) {
    && i < j < |moves| && moves[i].Show? && moves[j].Device? && NoDeviceAfter(moves, j)
    && moves[i].path in moves[j].vault && Some(moves[j].vault[moves[i].path]) != o.data
  }

  /** A device was the last to write, after the copy was placed, and left other bytes at its place. */
  ghost predicate EditedSincePlacing(o: Order, moves: seq<Move>) {
    exists i: nat, j: nat :: LeftByDevice(o, moves, i, j)
  }

  /** What a run shows of its copy: whether there is one, and what is at its place. */
  ghost predicate CopyKnown(o: Order, moves: seq<Move>, t: Making) {
    && t.stage !in {Undone}
    && (t.stage in {Began, Kept} ==> t.copy == None)
    && (t.copy.Some? ==> exists i | 0 <= i < |moves| :: moves[i] == Show(t.copy.value))
    && (forall i | 0 <= i < |moves| && moves[i].Show? :: t.copy == Some(moves[i].path))
    && (t.copy.Some? && t.copy.value in t.vault && Some(t.vault[t.copy.value]) != o.data <==>
      EditedSincePlacing(o, moves))
  }

  lemma NoDeviceMore(moves: seq<Move>, j: nat, a: Move)
    requires !a.Device? && j < |moves|
    ensures NoDeviceAfter(moves + [a], j) <==> NoDeviceAfter(moves, j)
  {
    if NoDeviceAfter(moves + [a], j) {
      forall n | j < n < |moves| ensures !moves[n].Device? {
        assert (moves + [a])[n] == moves[n];
      }
    }
  }

  lemma EditedMore(o: Order, moves: seq<Move>, a: Move)
    requires !a.Device?
    ensures EditedSincePlacing(o, moves + [a]) <==> EditedSincePlacing(o, moves)
  {
    hide NoDeviceAfter;
    forall i: nat, j: nat ensures LeftByDevice(o, moves + [a], i, j) <==> LeftByDevice(o, moves, i, j) {
      if j < |moves| {
        NoDeviceMore(moves, j, a);
      }
    }
  }

  lemma EditedByDevice(o: Order, moves: seq<Move>, v: map<string, Bytes>)
    ensures EditedSincePlacing(o, moves + [Device(v)]) <==>
      exists i | 0 <= i < |moves| && moves[i].Show? :: moves[i].path in v && Some(v[moves[i].path]) != o.data
  {
    var next := moves + [Device(v)];
    if i :| 0 <= i < |moves| && moves[i].Show? && moves[i].path in v && Some(v[moves[i].path]) != o.data {
      assert LeftByDevice(o, next, i, |moves|);
    }
    if i: nat, j: nat :| LeftByDevice(o, next, i, j) {
      assert next[|moves|].Device?;
      assert j == |moves| && moves[i] == next[i];
    }
  }

  lemma KnownMore(o: Order, moves: seq<Move>, t: Making, a: Move)
    requires CopyKnown(o, moves, t) && Enabled(o, t, a) && a != Undo
    ensures CopyKnown(o, moves + [a], After(o, t, a))
  {
    hide EditedSincePlacing;
    var next, u := moves + [a], After(o, t, a);
    match a
    case Device(v) =>
      EditedByDevice(o, moves, v);
      DeviceKnown(o, moves, t, v);
    case _ =>
      EditedMore(o, moves, a);
      StepKnown(o, moves, t, a);
  }

  lemma DeviceKnown(o: Order, moves: seq<Move>, t: Making, v: map<string, Bytes>)
    requires CopyKnown(o, moves, t)
    requires EditedSincePlacing(o, moves + [Device(v)]) <==>
      exists i | 0 <= i < |moves| && moves[i].Show? :: moves[i].path in v && Some(v[moves[i].path]) != o.data
    ensures CopyKnown(o, moves + [Device(v)], t.(vault := v))
  {
    hide EditedSincePlacing;
    var next := moves + [Device(v)];
    forall i | 0 <= i < |next| && next[i].Show? ensures t.copy == Some(next[i].path) {
      assert moves[i] == next[i];
    }
    if t.copy.Some? {
      var i: nat :| i < |moves| && moves[i] == Show(t.copy.value);
      assert next[i] == Show(t.copy.value);
    }
  }

  lemma StepKnown(o: Order, moves: seq<Move>, t: Making, a: Move)
    requires CopyKnown(o, moves, t) && Enabled(o, t, a) && a != Undo && !a.Device?
    requires EditedSincePlacing(o, moves + [a]) <==> EditedSincePlacing(o, moves)
    ensures CopyKnown(o, moves + [a], After(o, t, a))
  {
    hide EditedSincePlacing;
    var next, u := moves + [a], After(o, t, a);
    if a.Show? {
      assert next[|moves|] == a;
    } else if t.copy.Some? {
      var i: nat :| i < |moves| && moves[i] == Show(t.copy.value);
      assert next[i] == Show(t.copy.value);
    }
    forall i | 0 <= i < |next| && next[i].Show? ensures u.copy == Some(next[i].path) {
      assert i < |moves| ==> moves[i] == next[i];
    }
  }

  /** Up to the undoing, the place of the copy holds other bytes exactly if a device left them there. */
  lemma {:induction false} RunKnown(o: Order, s: Making, moves: seq<Move>)
    requires s.stage == Began && s.copy == None && RunTo(o, s, moves).Some? && Undo !in moves
    ensures CopyKnown(o, moves, RunTo(o, s, moves).value)
    decreases |moves|
  {
    hide CopyKnown, After, Enabled;
    if moves == [] {
      NothingKnown(o, s);
    } else {
      var init, a := moves[..|moves| - 1], moves[|moves| - 1];
      assert moves == init + [a];
      RunKnown(o, s, init);
      KnownMore(o, init, RunTo(o, s, init).value, a);
    }
  }

  lemma NothingKnown(o: Order, s: Making)
    requires s.stage == Began && s.copy == None
    ensures CopyKnown(o, [], s)
  {
  }

  /** Something other than what was to be created goes from the vault. */
  ghost predicate Loses(o: Order, before: Making, after: Making) {
    exists p | p in before.vault && p !in after.vault :: Some(before.vault[p]) != o.data
  }

  /**
   Over every run: undoing a failed creation deletes bytes that were never archived if and only if,
   after the copy was placed, a device was the last to write and left other bytes at its place.
   */
  lemma UndoingLosesExactly(o: Order, s: Making, moves: seq<Move>)
    requires s.stage == Began && s.copy == None && Undo !in moves && RunTo(o, s, moves + [Undo]).Some?
    ensures RunTo(o, s, moves).Some?
    ensures Loses(o, RunTo(o, s, moves).value, RunTo(o, s, moves + [Undo]).value) <==> EditedSincePlacing(o, moves)
  {
    hide EditedSincePlacing;
    assert (moves + [Undo])[..|moves|] == moves;
    RunKnown(o, s, moves);
    var t := RunTo(o, s, moves).value;
    var u := After(o, t, Undo);
    if t.copy.Some? && t.copy.value in t.vault {
      assert t.copy.value !in u.vault;
    }
  }

  /** There is such a run, whatever is created and whatever the device wrote. */
  lemma AnEditedCopyIsDeleted(o: Order, s: Making, path: string, edited: Bytes) returns (moves: seq<Move>)
    requires s.stage == Began && s.copy == None && o.data.Some? && path !in s.vault && edited != o.data.value
    ensures Undo !in moves && RunTo(o, s, moves + [Undo]).Some?
    ensures var before, after := RunTo(o, s, moves).value, RunTo(o, s, moves + [Undo]).value;
      path in before.vault && before.vault[path] == edited && path !in after.vault
  {
    var v := s.vault[path := edited];
    var s1 := After(o, s, Keep);
    var s2 := After(o, s1, Show(path));
    var s3 := After(o, s2, Device(v));
    var s4 := After(o, s3, Break);
    assert [] + [Keep] == [Keep] && [Keep] + [Show(path)] == [Keep, Show(path)];
    assert [Keep, Show(path)] + [Device(v)] == [Keep, Show(path), Device(v)];
    assert [Keep, Show(path), Device(v)] + [Break] == [Keep, Show(path), Device(v), Break];
    RunMore(o, s, [], s, Keep);
    RunMore(o, s, [Keep], s1, Show(path));
    RunMore(o, s, [Keep, Show(path)], s2, Device(v));
    RunMore(o, s, [Keep, Show(path), Device(v)], s3, Break);
    moves := [Keep, Show(path), Device(v), Break];
    RunMore(o, s, moves, s4, Undo);
  }

  /** The creation's steps touch archive and manifests under its own identity only. */
  ghost predicate OnlyOwn(o: Order, s: Making, t: Making) {
    && WithoutId(t.archive, o.id) == s.archive
    && t.manifests - {o.id} == s.manifests
    && (t.stage == Undone ==> t.archive == s.archive && t.manifests == s.manifests)
    && (t.stage in {Began, Kept, Shown} ==> t.manifests == s.manifests)
    && (t.stage in {Kept, Shown} ==> o.data.Some? && (o.id, 1) in t.archive && t.archive[(o.id, 1)] == o.data.value)
    && (t.stage in {Began, Kept, Shown} ==> (t.copy.Some? <==> t.stage == Shown))
  }

  /** An undone creation leaves archive and manifests as they were. */
  lemma {:induction false} RunOwn(o: Order, s: Making, moves: seq<Move>)
    requires s.stage == Began && s.copy == None && RunTo(o, s, moves).Some?
    requires o.id !in s.manifests && forall k | k in s.archive :: k.0 != o.id
    ensures OnlyOwn(o, s, RunTo(o, s, moves).value)
    decreases |moves|
  {
    if moves == [] {
      assert WithoutId(s.archive, o.id) == s.archive && s.manifests - {o.id} == s.manifests;
    } else {
      var init := moves[..|moves| - 1];
      RunOwn(o, s, init);
      OwnMore(o, s, RunTo(o, s, init).value, moves[|moves| - 1]);
    }
  }

  lemma OwnMore(o: Order, s: Making, t: Making, a: Move)
    requires OnlyOwn(o, s, t) && Enabled(o, t, a)
    ensures OnlyOwn(o, s, After(o, t, a))
  {
    var u := After(o, t, a);
    if a == Keep {
      assert WithoutId(u.archive, o.id) == WithoutId(t.archive, o.id);
    } else if a == Write {
      assert u.manifests - {o.id} == t.manifests - {o.id};
    } else if a == Undo {
      assert WithoutId(u.archive, o.id) == u.archive && u.manifests - {o.id} == u.manifests;
    }
  }

  // ----- A revision, step by step -----

  function Key(o: Order, number: nat): (string, nat) {
    (o.id, number)
  }

  /**
   Where the copy of the new revision goes: over the old one while that is the archived bytes it
   showed, to its place if it is gone, and beside it otherwise.
   */
  predicate ShowsAt(o: Order, s: Making, p: string)
    requires o.id in s.manifests
  {
    var m := s.manifests[o.id];
    var previous := match CurrentRevision(m) case None => None case Some(r) => r.data;
    if m.path.Some? && m.path.value in s.vault && Some(s.vault[m.path.value]) == previous then p == m.path.value
    else if m.path.Some? && m.path.value !in s.vault then p == m.path.value
    else p !in s.vault
  }

  predicate MayRevise(o: Order, number: nat, s: Making, a: Move) {
    match a
    case Keep => s.stage == Began && o.data.Some? && Key(o, number) !in s.archive
    case Show(p) => s.stage == Kept && o.data.Some? && o.id in s.manifests && ShowsAt(o, s, p)
    case Write => o.id in s.manifests && (s.stage == Shown || (s.stage == Began && o.data.None?))
    case Finish => s.stage == Written
    case Break => s.stage in {Began, Kept, Shown, Written}
    case Crash => s.stage in {Began, Kept, Shown, Written, Failing}
    case Undo => s.stage == Failing
    case Device(_) => true
  }

  /** Archived bytes are taken back only if they were archived, and the manifest was not written yet. */
  function Revise(o: Order, number: nat, s: Making, a: Move): Making
    requires MayRevise(o, number, s, a)
  {
    match a
    case Keep => s.(archive := s.archive[Key(o, number) := o.data.value], stage := Kept)
    case Show(p) => s.(vault := s.vault[p := o.data.value], copy := Some(p), stage := Shown)
    case Write =>
      var m := s.manifests[o.id];
      s.(manifests := s.manifests[o.id := WithRevision(m, o.data, o.url, if s.copy.Some? then s.copy else m.path)],
        stage := Written)
    case Finish => s.(stage := Complete)
    case Break => s.(stage := if s.stage in {Kept, Shown} then Failing else Reported)
    case Crash => s.(stage := Crashed)
    case Undo => s.(archive := WithoutKey(s.archive, o, number), stage := Undone)
    case Device(v) => s.(vault := v)
  }

  function WithoutKey(archive: Archive, o: Order, number: nat): Archive {
    map k | k in archive && k != Key(o, number) :: archive[k]
  }

  function RevisedTo(o: Order, number: nat, s: Making, moves: seq<Move>): Option<Making>
    decreases |moves|
  {
    if moves == [] then Some(s)
    else
      match RevisedTo(o, number, s, moves[..|moves| - 1])
      case None => None
      case Some(t) =>
        if MayRevise(o, number, t, moves[|moves| - 1]) then Some(Revise(o, number, t, moves[|moves| - 1])) else None
  }

  lemma RevisedMore(o: Order, number: nat, s: Making, moves: seq<Move>, t: Making, a: Move)
    requires RevisedTo(o, number, s, moves) == Some(t) && MayRevise(o, number, t, a)
    ensures RevisedTo(o, number, s, moves + [a]) == Some(Revise(o, number, t, a))
  {
    assert (moves + [a])[..|moves|] == moves;
  }

  predicate Showed(moves: seq<Move>) {
    exists a | a in moves :: a.Show?
  }

  /** What the moves say of stage, archive and manifests. */
  ghost predicate RevisionKnown(o: Order, number: nat, s: Making, moves: seq<Move>, t: Making) {
    && (Undo in moves <==> t.stage == Undone)
    && (t.stage in {Kept, Shown, Failing, Undone} ==> Keep in moves && Write !in moves)
    && (t.stage == Began ==> Keep !in moves && Write !in moves)
    && (Showed(moves) ==> Keep in moves)
    && (Keep in moves ==> o.data.Some? && Key(o, number) !in s.archive)
    && t.archive == (if Keep in moves && Undo !in moves then s.archive[Key(o, number) := o.data.value] else s.archive)
    && (Write !in moves ==> t.manifests == s.manifests)
  }

  lemma KnownOfRevision(o: Order, number: nat, s: Making, moves: seq<Move>, t: Making, a: Move)
    requires RevisionKnown(o, number, s, moves, t) && MayRevise(o, number, t, a)
    ensures RevisionKnown(o, number, s, moves + [a], Revise(o, number, t, a))
  {
    hide ShowsAt, WithRevision, CurrentRevision;
    var next := moves + [a];
    assert forall b :: b in next <==> b in moves || b == a;
    ShowedMore(moves, a);
    match a
    case Undo => assert WithoutKey(t.archive, o, number) == s.archive;
    case _ =>
      assert Undo in next <==> Undo in moves;
      assert a != Keep ==> (Keep in next <==> Keep in moves);
      assert a != Write ==> (Write in next <==> Write in moves);
  }

  lemma ShowedMore(moves: seq<Move>, a: Move)
    ensures Showed(moves + [a]) <==> Showed(moves) || a.Show?
  {
    if b :| b in moves && b.Show? {
      assert b in moves + [a];
    }
    assert a in moves + [a];
  }

  lemma {:induction false} RunOfRevision(o: Order, number: nat, s: Making, moves: seq<Move>)
    requires s.stage == Began && RevisedTo(o, number, s, moves).Some?
    ensures RevisionKnown(o, number, s, moves, RevisedTo(o, number, s, moves).value)
    decreases |moves|
  {
    hide RevisionKnown, MayRevise, Revise;
    if moves == [] {
      NothingRevised(o, number, s);
    } else {
      var init, a := moves[..|moves| - 1], moves[|moves| - 1];
      assert moves == init + [a];
      RunOfRevision(o, number, s, init);
      KnownOfRevision(o, number, s, init, RevisedTo(o, number, s, init).value, a);
    }
  }

  lemma NothingRevised(o: Order, number: nat, s: Making)
    requires s.stage == Began
    ensures RevisionKnown(o, number, s, [], s)
  {
  }

  lemma ValuesAfter(archive: Archive, key: (string, nat), data: Bytes, b: Bytes)
    requires key !in archive
    ensures b in archive[key := data].Values <==> b in archive.Values || b == data
  {
    var next := archive[key := data];
    assert next[key] == data && key in next;
    if b in archive.Values {
      var k :| k in archive && archive[k] == b;
      assert next[k] == b;
    }
    if b in next.Values && b != data {
      var k :| k in next && next[k] == b;
      assert archive[k] == b;
    }
  }

  /**
   Over every run of a revision: bytes it showed in the vault are archived nowhere afterwards if and
   only if it broke after showing them and before writing the manifest, cleaned up after itself, and
   the archive held them under no other number or artifact.
   */
  lemma ShownUnarchivedExactly(o: Order, number: nat, s: Making, moves: seq<Move>)
    requires s.stage == Began && RevisedTo(o, number, s, moves).Some?
    ensures Showed(moves) ==> o.data.Some?
    ensures Showed(moves) ==>
      (o.data.value !in RevisedTo(o, number, s, moves).value.archive.Values <==>
        Write !in moves && Undo in moves && o.data.value !in s.archive.Values)
  {
    hide ShowsAt;
    RunOfRevision(o, number, s, moves);
    if Showed(moves) {
      ValuesAfter(s.archive, Key(o, number), o.data.value, o.data.value);
    }
  }

  /** There is such a run for every artifact and all new bytes. */
  lemma ARevisionLeavesBytesUnarchived(o: Order, number: nat, s: Making, beside: string)
    returns (moves: seq<Move>, path: string)
    requires s.stage == Began && o.id in s.manifests && o.data.Some? && beside !in s.vault
    requires Key(o, number) !in s.archive && o.data.value !in s.archive.Values
    ensures RevisedTo(o, number, s, moves).Some?
    ensures var t := RevisedTo(o, number, s, moves).value;
      && path in t.vault && t.vault[path] == o.data.value && o.data.value !in t.archive.Values
      && t.manifests == s.manifests
  {
    hide CurrentRevision, RevisedTo, RevisionKnown;
    var s1 := Revise(o, number, s, Keep);
    path := if ShowsAt(o, s1, beside) then beside else s.manifests[o.id].path.value;
    assert ShowsAt(o, s1, path);
    var s2 := Revise(o, number, s1, Show(path));
    var s3 := Revise(o, number, s2, Break);
    assert [] + [Keep] == [Keep] && [Keep] + [Show(path)] == [Keep, Show(path)];
    assert [Keep, Show(path)] + [Break] == [Keep, Show(path), Break];
    assert [Keep, Show(path), Break] + [Undo] == [Keep, Show(path), Break, Undo];
    NoRevision(o, number, s);
    RevisedMore(o, number, s, [], s, Keep);
    RevisedMore(o, number, s, [Keep], s1, Show(path));
    RevisedMore(o, number, s, [Keep, Show(path)], s2, Break);
    RevisedMore(o, number, s, [Keep, Show(path), Break], s3, Undo);
    moves := [Keep, Show(path), Break, Undo];
    assert moves[1].Show? && moves[3] == Undo;
    ShownUnarchivedExactly(o, number, s, moves);
  }

  lemma NoRevision(o: Order, number: nat, s: Making)
    ensures RevisedTo(o, number, s, []) == Some(s)
  {
  }

  // ----- Putting a moved copy back, step by step -----

  /** Archived bytes, found at one path and to be put back at another. */
  datatype Errand = Errand(filed: string, here: string, data: Bytes)

  datatype Pace = Looking | Found | Placed | Taken | Stopped

  datatype Walk = Walk(vault: map<string, Bytes>, pace: Pace)

  /** The file is read, the bytes are placed, the file is removed; or the errand is stopped. */
  datatype Step = Find | Put | Take | Stop | Others(vault: map<string, Bytes>)

  predicate MayStep(e: Errand, s: Walk, a: Step) {
    match a
    case Find => s.pace == Looking && e.here in s.vault && s.vault[e.here] == e.data
    case Put => s.pace == Found && e.filed !in s.vault
    case Take => s.pace == Placed
    case Stop => s.pace in {Found, Placed}
    case Others(_) => true
  }

  /** What is removed is not looked at again. */
  function Stepped(e: Errand, s: Walk, a: Step): Walk
    requires MayStep(e, s, a)
  {
    match a
    case Find => s.(pace := Found)
    case Put => s.(vault := s.vault[e.filed := e.data], pace := Placed)
    case Take => s.(vault := s.vault - {e.here}, pace := Taken)
    case Stop => s.(pace := Stopped)
    case Others(v) => s.(vault := v)
  }

  function WalkTo(e: Errand, s: Walk, steps: seq<Step>): Option<Walk>
    decreases |steps|
  {
    if steps == [] then Some(s)
    else
      match WalkTo(e, s, steps[..|steps| - 1])
      case None => None
      case Some(t) => if MayStep(e, t, steps[|steps| - 1]) then Some(Stepped(e, t, steps[|steps| - 1])) else None
  }

  lemma WalkMore(e: Errand, s: Walk, steps: seq<Step>, t: Walk, a: Step)
    requires WalkTo(e, s, steps) == Some(t) && MayStep(e, t, a)
    ensures WalkTo(e, s, steps + [a]) == Some(Stepped(e, t, a))
  {
    assert (steps + [a])[..|steps|] == steps;
  }

  /** What stood at the place of the file when a device last wrote, if one did after the file was read. */
  function LastLeft(e: Errand, steps: seq<Step>): Option<map<string, Bytes>>
    decreases |steps|
  {
    if steps == [] || steps[|steps| - 1] == Find then None
    else if steps[|steps| - 1].Others? then
      if Find in steps then Some(steps[|steps| - 1].vault) else None
    else LastLeft(e, steps[..|steps| - 1])
  }

  /** A device was the last to write the file after it was read, and left bytes there that are not on record. */
  predicate LeftUnrecorded(e: Errand, manifests: map<string, Manifest>, steps: seq<Step>) {
    match LastLeft(e, steps)
    case None => false
    case Some(v) => e.here in v && !Recorded(manifests, v[e.here])
  }

  /** Until it is removed, the file is as the last device left it, or as it was read. */
  ghost predicate FileKnown(e: Errand, steps: seq<Step>, t: Walk) {
    && (t.pace == Looking <==> Find !in steps)
    && (t.pace in {Found, Placed, Stopped} ==>
          match LastLeft(e, steps)
          case None => e.here in t.vault && t.vault[e.here] == e.data
          case Some(v) => (e.here in t.vault <==> e.here in v) && (e.here in v ==> t.vault[e.here] == v[e.here]))
  }

  lemma FileKnownMore(e: Errand, steps: seq<Step>, t: Walk, a: Step)
    requires FileKnown(e, steps, t) && MayStep(e, t, a) && e.filed != e.here
    ensures FileKnown(e, steps + [a], Stepped(e, t, a))
  {
    var next := steps + [a];
    assert next[..|next| - 1] == steps && next[|next| - 1] == a;
    assert Find in next <==> Find in steps || a == Find;
  }

  lemma {:induction false} WalkKnown(e: Errand, s: Walk, steps: seq<Step>)
    requires s.pace == Looking && e.filed != e.here && WalkTo(e, s, steps).Some?
    ensures FileKnown(e, steps, WalkTo(e, s, steps).value)
    decreases |steps|
  {
    hide FileKnown, MayStep, Stepped;
    if steps == [] {
      NothingFound(e, s);
    } else {
      var init, a := steps[..|steps| - 1], steps[|steps| - 1];
      assert steps == init + [a];
      WalkKnown(e, s, init);
      FileKnownMore(e, init, WalkTo(e, s, init).value, a);
    }
  }

  lemma NothingFound(e: Errand, s: Walk)
    requires s.pace == Looking
    ensures FileKnown(e, [], s)
  {
  }

  /**
   Over every run: removing the file a copy was found in takes bytes that are not on record if and only
   if a device was the last to write it after it was read, and left such bytes there.
   */
  lemma TakingLosesExactly(e: Errand, manifests: map<string, Manifest>, s: Walk, steps: seq<Step>)
    requires s.pace == Looking && e.filed != e.here && Recorded(manifests, e.data)
    requires WalkTo(e, s, steps + [Take]).Some?
    ensures WalkTo(e, s, steps).Some?
    ensures var before := WalkTo(e, s, steps).value;
      e.here in before.vault && !Recorded(manifests, before.vault[e.here]) <==> LeftUnrecorded(e, manifests, steps)
    ensures e.here !in WalkTo(e, s, steps + [Take]).value.vault
  {
    hide Recorded;
    assert (steps + [Take])[..|steps|] == steps;
    WalkKnown(e, s, steps);
  }

  /** There is such a run, whatever the device wrote. */
  lemma AnEditedFileIsTaken(e: Errand, s: Walk, edited: Bytes) returns (steps: seq<Step>)
    requires s.pace == Looking && e.filed != e.here && e.filed !in s.vault && e.here in s.vault
      && s.vault[e.here] == e.data
    ensures WalkTo(e, s, steps + [Take]).Some? && WalkTo(e, s, steps).Some?
    ensures var before, after := WalkTo(e, s, steps).value, WalkTo(e, s, steps + [Take]).value;
      e.here in before.vault && before.vault[e.here] == edited && e.here !in after.vault
  {
    hide WalkTo;
    var s1 := Stepped(e, s, Find);
    var s2 := Stepped(e, s1, Put);
    var v := s2.vault[e.here := edited];
    var s3 := Stepped(e, s2, Others(v));
    assert [] + [Find] == [Find] && [Find] + [Put] == [Find, Put]
      && [Find, Put] + [Others(v)] == [Find, Put, Others(v)];
    NoSteps(e, s);
    WalkMore(e, s, [], s, Find);
    WalkMore(e, s, [Find], s1, Put);
    WalkMore(e, s, [Find, Put], s2, Others(v));
    steps := [Find, Put, Others(v)];
    WalkMore(e, s, steps, s3, Take);
  }

  lemma NoSteps(e: Errand, s: Walk)
    ensures WalkTo(e, s, []) == Some(s)
  {
  }
}
