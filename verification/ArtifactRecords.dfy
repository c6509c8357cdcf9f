/**
 What is on record of artifacts: a manifest for each, with its revisions numbered from 1, and the
 archive that holds their bytes. Hashes are modelled by the bytes.
 */
module ArtifactRecords {
  import opened Results

  type Bytes = string

  /** A revision holds a file or, for a link, nothing but its address. */
  datatype Revision = Revision(number: nat, data: Option<Bytes>, url: Option<string>)

  datatype Manifest = Manifest(path: Option<string>, url: Option<string>, current: nat, revisions: seq<Revision>,
                               removed: bool)

  function CurrentRevision(m: Manifest): Option<Revision> {
    Numbered(m.revisions, m.current)
  }

  function Numbered(revisions: seq<Revision>, number: nat): Option<Revision> {
    if revisions == [] then None
    else if revisions[0].number == number then Some(revisions[0])
    else Numbered(revisions[1..], number)
  }

  // ----- What holds between any two steps -----

  /** Revisions are numbered from 1 to the current one. */
  predicate WellNumbered(m: Manifest) {
    && m.current == |m.revisions| > 0
    && forall k | 0 <= k < |m.revisions| :: m.revisions[k].number == k + 1
  }

  type Archive = map<(string, nat), Bytes>

  /** The archive holds the recorded bytes of every revision. */
  predicate Archived(archive: Archive, id: string, m: Manifest) {
    forall r | r in m.revisions && r.data.Some? :: (id, r.number) in archive && archive[(id, r.number)] == r.data.value
  }

  predicate ManifestsOk(archive: Archive, manifests: map<string, Manifest>) {
    forall id | id in manifests :: WellNumbered(manifests[id]) && Archived(archive, id, manifests[id])
  }

  /** Some recorded revision has exactly these bytes. */
  predicate Recorded(manifests: map<string, Manifest>, bytes: Bytes) {
    exists id | id in manifests :: exists r | r in manifests[id].revisions :: r.data == Some(bytes)
  }

  /** Artifacts stay, revisions are only added, removal stays. */
  predicate Grew(before: map<string, Manifest>, after: map<string, Manifest>) {
    forall id | id in before ::
      && id in after
      && before[id].revisions <= after[id].revisions
      && (before[id].removed ==> after[id].removed)
  }

  lemma GrewTransitive(a: map<string, Manifest>, b: map<string, Manifest>, c: map<string, Manifest>)
    requires Grew(a, b) && Grew(b, c)
    ensures Grew(a, c)
  {
  }

  /** What is recorded stays recorded. */
  lemma RecordedStays(before: map<string, Manifest>, after: map<string, Manifest>, b: Bytes)
    requires Grew(before, after) && Recorded(before, b)
    ensures Recorded(after, b)
  {
    var id :| id in before && exists r | r in before[id].revisions :: r.data == Some(b);
    var r :| r in before[id].revisions && r.data == Some(b);
    assert r in after[id].revisions;
  }

  /** Recorded bytes never change: what a manifest recorded once, the archive holds ever after. */
  lemma RecordedBytesStay(archive: Archive, manifests: map<string, Manifest>, before: map<string, Manifest>,
                          id: string, k: nat)
    requires Grew(before, manifests) && ManifestsOk(archive, manifests)
    requires id in before && WellNumbered(before[id]) && k < |before[id].revisions|
      && before[id].revisions[k].data.Some?
    ensures id in manifests && k + 1 <= manifests[id].current && manifests[id].revisions[k] == before[id].revisions[k]
    ensures (id, k + 1) in archive && archive[(id, k + 1)] == before[id].revisions[k].data.value
  {
    var r := manifests[id].revisions[k];
    assert WellNumbered(manifests[id]) && Archived(archive, id, manifests[id]);
    assert r in manifests[id].revisions && r.number == k + 1;
  }

  lemma {:induction false} FindNumbered(revisions: seq<Revision>, k: nat, from: nat)
    requires from <= k < |revisions| && forall j | 0 <= j < |revisions| :: revisions[j].number == j + 1
    ensures Numbered(revisions[from..], k + 1) == Some(revisions[k])
    decreases k - from
  {
    if from < k {
      FindNumbered(revisions, k, from + 1);
      assert revisions[from..][1..] == revisions[from + 1..];
    }
  }

  lemma CurrentIsLast(m: Manifest)
    requires WellNumbered(m)
    ensures CurrentRevision(m) == Some(m.revisions[|m.revisions| - 1])
  {
    FindNumbered(m.revisions, |m.revisions| - 1, 0);
    assert m.revisions[0..] == m.revisions;
  }

  function FirstManifest(path: Option<string>, data: Option<Bytes>, url: Option<string>): Manifest {
    Manifest(path, url, 1, [Revision(1, data, url)], false)
  }

  function WithRevision(m: Manifest, data: Option<Bytes>, url: Option<string>, path: Option<string>): Manifest {
    m.(path := path, url := if url.Some? then url else m.url, current := m.current + 1,
      revisions := m.revisions + [Revision(m.current + 1, data, url)])
  }

  lemma WithRevisionOk(archive: Archive, id: string, m: Manifest, data: Option<Bytes>, url: Option<string>,
                       path: Option<string>)
    requires WellNumbered(m) && Archived(archive, id, m)
    requires data.Some? ==> (id, m.current + 1) in archive && archive[(id, m.current + 1)] == data.value
    ensures WellNumbered(WithRevision(m, data, url, path)) && Archived(archive, id, WithRevision(m, data, url, path))
    ensures m.revisions <= WithRevision(m, data, url, path).revisions
  {
  }

  lemma GrewSelf(manifests: map<string, Manifest>)
    ensures Grew(manifests, manifests)
  {
  }

  lemma RecordedIn(manifests: map<string, Manifest>, id: string, k: nat, data: Bytes)
    requires id in manifests && k < |manifests[id].revisions| && manifests[id].revisions[k].data == Some(data)
    ensures Recorded(manifests, data)
  {
    assert manifests[id].revisions[k] in manifests[id].revisions;
  }

  lemma CurrentIsRecorded(archive: Archive, manifests: map<string, Manifest>, id: string)
    requires ManifestsOk(archive, manifests) && id in manifests
    ensures var m := manifests[id];
      && m.revisions != [] && CurrentRevision(m) == Some(m.revisions[|m.revisions| - 1]) && m.current == |m.revisions|
      && (CurrentRevision(m).value.data.Some? ==> Recorded(manifests, CurrentRevision(m).value.data.value))
  {
    var m := manifests[id];
    assert WellNumbered(m);
    CurrentIsLast(m);
    assert m.revisions[|m.revisions| - 1] in m.revisions;
  }

  lemma NextFile(archive: Archive, manifests: map<string, Manifest>, id: string, data: Bytes)
    requires ManifestsOk(archive, manifests) && id in manifests && (id, manifests[id].current + 1) !in archive
    ensures ManifestsOk(archive[(id, manifests[id].current + 1) := data], manifests)
  {
  }

  lemma DropNextFile(archive: Archive, manifests: map<string, Manifest>, id: string)
    requires ManifestsOk(archive, manifests) && id in manifests
    ensures ManifestsOk(map k | k in archive && k != (id, manifests[id].current + 1) :: archive[k], manifests)
  {
    var dropped := map k | k in archive && k != (id, manifests[id].current + 1) :: archive[k];
    forall o | o in manifests ensures WellNumbered(manifests[o]) && Archived(dropped, o, manifests[o]) {
      assert WellNumbered(manifests[o]) && Archived(archive, o, manifests[o]);
      forall r | r in manifests[o].revisions && r.data.Some?
        ensures (o, r.number) in dropped && dropped[(o, r.number)] == r.data.value {
        var k: nat :| k < |manifests[o].revisions| && manifests[o].revisions[k] == r;
        assert r.number == k + 1 <= manifests[o].current;
      }
    }
  }

  lemma RevisionOk(archive: Archive, manifests: map<string, Manifest>, id: string, data: Option<Bytes>,
                   url: Option<string>, path: Option<string>)
    requires ManifestsOk(archive, manifests) && id in manifests
    requires data.Some? ==>
      (id, manifests[id].current + 1) in archive && archive[(id, manifests[id].current + 1)] == data.value
    ensures ManifestsOk(archive, manifests[id := WithRevision(manifests[id], data, url, path)])
    ensures Grew(manifests, manifests[id := WithRevision(manifests[id], data, url, path)])
  {
    hide Archived, WellNumbered;
    WithRevisionOk(archive, id, manifests[id], data, url, path);
  }

  lemma RevisionDiffers(m: Manifest, data: Option<Bytes>, url: Option<string>, path: Option<string>)
    ensures WithRevision(m, data, url, path) != m
  {
  }

  lemma RemovedOk(archive: Archive, manifests: map<string, Manifest>, id: string)
    requires ManifestsOk(archive, manifests) && id in manifests
    ensures ManifestsOk(archive, manifests[id := manifests[id].(removed := true)])
    ensures Grew(manifests, manifests[id := manifests[id].(removed := true)])
  {
  }

  lemma AnotherFile(archive: Archive, manifests: map<string, Manifest>, id: string, data: Bytes)
    requires ManifestsOk(archive, manifests) && id !in manifests
    ensures ManifestsOk(archive[(id, 1) := data], manifests)
  {
  }

  lemma NewManifestOk(archive: Archive, manifests: map<string, Manifest>, id: string, data: Option<Bytes>,
                      url: Option<string>, path: Option<string>)
    requires ManifestsOk(archive, manifests) && id !in manifests
    requires data.Some? ==> (id, 1) in archive && archive[(id, 1)] == data.value
    ensures ManifestsOk(archive, manifests[id := FirstManifest(path, data, url)])
    ensures Grew(manifests, manifests[id := FirstManifest(path, data, url)])
  {
  }
}
