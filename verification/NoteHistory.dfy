/**
 Evidence of removals read from Git: objects come in bounded batches of one framed stream, and the
 newest removal of each wanted note is searched for among the deleted blobs, newest first.
 */
module NoteHistory {
  import opened Results
  import Naming
  import Seqs

  const CHUNK: nat := 128
  const BATCH_BYTES: nat := 8 * 1024 * 1024
  const MAX_BLOB: nat := 32 * 1024 * 1024

  type Bytes = string

  /** An object of the repository; only blobs have a body here. */
  datatype Object = Blob(data: Bytes) | Other

  type Objects = map<string, Object>

  predicate IsBlob(objects: Objects, name: string) {
    name in objects && objects[name].Blob?
  }

  function Data(objects: Objects, name: string): Bytes {
    if IsBlob(objects, name) then objects[name].data else ""
  }

  /** A blob the reader accepts. */
  predicate Fine(objects: Objects, name: string) {
    IsBlob(objects, name) && |Data(objects, name)| <= MAX_BLOB
  }

  /** An object name: one word. */
  predicate Word(s: string) {
    s != "" && ' ' !in s && '\n' !in s
  }

  // ----- One batch: the framed stream -----

  /** What `git cat-file --batch` prints for the names of a batch. */
  function Stream(objects: Objects, names: seq<string>): Bytes
  {
    if names == [] then ""
    else Frame(names[0], Data(objects, names[0])) + Stream(objects, names[1..])
  }

  function Header(name: string, size: nat): string {
    name + (" " + ("blob" + (" " + Naming.Decimal(size))))
  }

  function Frame(name: string, data: Bytes): Bytes {
    Header(name, |data|) + ("\n" + (data + "\n"))
  }

  /** `s.split()` on a header line, where only spaces separate. */
  function Words(s: string): seq<string>
    decreases |s|
  {
    if s == "" then []
    else if s[0] == ' ' then Words(s[1..])
    else var n := WordLength(s); [s[..n]] + Words(s[n..])
  }

  function WordLength(s: string): (n: nat)
    ensures n <= |s| && (n < |s| ==> s[n] == ' ') && forall i | 0 <= i < n :: s[i] != ' '
    ensures s != "" && s[0] != ' ' ==> n > 0
  {
    if s == "" || s[0] == ' ' then 0 else 1 + WordLength(s[1..])
  }

  function LineFeed(s: Bytes, from: nat): (n: nat)
    requires from <= |s|
    ensures from <= n <= |s| && (n < |s| ==> s[n] == '\n') && forall i | from <= i < n :: s[i] != '\n'
    decreases |s| - from
  {
    if from == |s| || s[from] == '\n' then from else LineFeed(s, from + 1)
  }

  lemma FirstWord(w: string, rest: string)
    requires w != "" && ' ' !in w && (rest == "" || rest[0] == ' ')
    ensures Words(w + rest) == [w] + Words(rest)
  {
    hide WordLength;
    var s := w + rest;
    assert forall i | 0 <= i < |w| :: s[i] == w[i] && w[i] in w;
    assert rest != "" ==> s[|w|] == ' ';
    assert WordLength(s) == |w|;
    assert s[..|w|] == w && s[|w|..] == rest;
  }

  lemma HeaderWords(name: string, size: nat)
    requires Word(name)
    ensures Words(Header(name, size)) == [name, "blob", Naming.Decimal(size)]
  {
    hide Words;
    var d := Naming.Decimal(size);
    FirstWord(name, " " + ("blob" + (" " + d)));
    SpaceSkipped("blob" + (" " + d));
    FirstWord("blob", " " + d);
    SpaceSkipped(d);
    FirstWord(d, "");
    NoWords();
    assert d + "" == d;
  }

  lemma SpaceSkipped(s: string)
    ensures Words(" " + s) == Words(s)
  {
  }

  lemma NoWords()
    ensures Words("") == []
  {
  }

  lemma HeaderIsOneLine(name: string, size: nat)
    requires Word(name)
    ensures '\n' !in Header(name, size)
  {
    assert '\n' !in " " && '\n' !in "blob";
  }

  /** Where the frame at `offset` of a stream ends its header, its body and itself. */
  lemma FrameAt(raw: Bytes, offset: nat, name: string, data: Bytes, more: Bytes)
    requires Word(name) && offset <= |raw| && raw[offset..] == Frame(name, data) + more
    ensures var end := LineFeed(raw, offset);
      && end < |raw|
      && raw[offset..end] == Header(name, |data|)
      && end + 1 + |data| + 1 <= |raw|
      && raw[end + 1..end + 1 + |data|] == data
      && raw[end + 1 + |data| + 1..] == more
  {
    hide Header, LineFeed;
    var h := Header(name, |data|);
    HeaderIsOneLine(name, |data|);
    var rest := raw[offset..];
    assert rest == h + ("\n" + (data + "\n")) + more;
    assert forall i | 0 <= i < |h| :: raw[offset + i] == rest[i] == h[i] && h[i] in h;
    assert raw[offset + |h|] == rest[|h|] == '\n';
    var end := LineFeed(raw, offset);
    assert end == offset + |h|;
    assert raw[offset..end] == rest[..|h|] == h;
    Slices(raw, offset, h, data, more);
  }

  lemma Slices(raw: Bytes, offset: nat, h: Bytes, data: Bytes, more: Bytes)
    requires offset <= |raw| && raw[offset..] == h + ("\n" + (data + "\n")) + more
    ensures offset + |h| + 1 + |data| + 1 <= |raw|
    ensures raw[offset + |h| + 1..offset + |h| + 1 + |data|] == data
    ensures raw[offset + |h| + 1 + |data| + 1..] == more
  {
    var rest, d := raw[offset..], |h| + 1;
    assert rest == (h + "\n") + (data + ("\n" + more));
    assert rest == (h + "\n" + data) + ("\n" + more);
  }

  function Items(objects: Objects, names: seq<string>): seq<(string, Bytes)>
  {
    if names == [] then []
    else Items(objects, names[..|names| - 1]) + [(names[|names| - 1], Data(objects, names[|names| - 1]))]
  }

  lemma StreamStep(objects: Objects, names: seq<string>, i: nat, raw: Bytes, offset: nat)
    requires i < |names| && Word(names[i]) && offset <= |raw| && raw[offset..] == Stream(objects, names[i..])
    ensures var end, data := LineFeed(raw, offset), Data(objects, names[i]);
      && end < |raw|
      && Words(raw[offset..end]) == [names[i], "blob", Naming.Decimal(|data|)]
      && end + 1 + |data| + 1 <= |raw|
      && raw[end + 1..end + 1 + |data|] == data
      && raw[end + 1 + |data| + 1..] == Stream(objects, names[i + 1..])
  {
    hide Words, LineFeed, Frame, Header, Word;
    assert names[i..][1..] == names[i + 1..];
    FrameAt(raw, offset, names[i], Data(objects, names[i]), Stream(objects, names[i + 1..]));
    HeaderWords(names[i], |Data(objects, names[i])|);
  }

  lemma ItemsSnoc(objects: Objects, names: seq<string>, i: nat)
    requires i < |names|
    ensures Items(objects, names[..i + 1]) == Items(objects, names[..i]) + [(names[i], Data(objects, names[i]))]
  {
    assert names[..i + 1][..i] == names[..i];
  }

  lemma NoItems(objects: Objects, names: seq<string>)
    ensures Items(objects, names[..0]) == []
  {
  }

  /** Reading the stream frame by frame gives back every name with its own bytes. */
  method BlobBatch(objects: Objects, names: seq<string>) returns (items: seq<(string, Bytes)>, failed: bool)
    requires forall n | n in names :: Word(n)
    ensures !failed && items == Items(objects, names)
  {
    hide Words, LineFeed, Stream, Word, Items, Data, Naming.Decimal, Naming.Value;
    var raw := Stream(objects, names);
    var offset: nat := 0;
    items, failed := [], false;
    NoItems(objects, names);
    assert raw[0..] == raw && names[0..] == names;
    for i := 0 to |names|
      invariant offset <= |raw| && raw[offset..] == Stream(objects, names[i..])
      invariant items == Items(objects, names[..i]) && !failed
    {
      ghost var data := Data(objects, names[i]);
      StreamStep(objects, names, i, raw, offset);
      var end := LineFeed(raw, offset);
      var header := Words(raw[offset..end]);
      if |header| != 3 || header[1] != "blob" {
        failed := true;
        return;
      }
      Naming.ValueOfDecimal(|data|);
      var size := Naming.Value(header[2]);
      offset := end + 1;
      items := items + [(names[i], raw[offset..offset + size])];
      offset := offset + size + 1;
      ItemsSnoc(objects, names, i);
    }
    assert names[..|names|] == names;
  }

  // ----- All batches -----

  ghost function Flatten(batches: seq<seq<string>>): seq<string> {
    if batches == [] then [] else Flatten(batches[..|batches| - 1]) + batches[|batches| - 1]
  }

  ghost function Total(objects: Objects, names: seq<string>): nat {
    if names == [] then 0
    else Total(objects, names[..|names| - 1]) + |Data(objects, names[|names| - 1])|
  }

  /** A batch holds at most 8 MiB, or a single blob of at most 32 MiB. */
  ghost predicate BatchOk(objects: Objects, batch: seq<string>) {
    && 1 <= |batch| <= CHUNK
    && (forall n | n in batch :: Fine(objects, n))
    && (|batch| == 1 || Total(objects, batch) <= BATCH_BYTES)
  }

  ghost predicate BatchesOk(objects: Objects, batches: seq<seq<string>>) {
    forall b | b in batches :: BatchOk(objects, b)
  }

  lemma {:induction false} ItemsJoin(objects: Objects, a: seq<string>, b: seq<string>)
    ensures Items(objects, a + b) == Items(objects, a) + Items(objects, b)
  {
    if b == [] {
      assert a + b == a;
    } else {
      var init := b[..|b| - 1];
      ItemsJoin(objects, a, init);
      assert (a + b)[..|a + b| - 1] == a + init;
    }
  }

  lemma FlattenSnoc(batches: seq<seq<string>>, b: seq<string>)
    ensures Flatten(batches + [b]) == Flatten(batches) + b
  {
  }

  /** One more batch is read. */
  method Emit(objects: Objects, items: seq<(string, Bytes)>, batch: seq<string>, ghost batches: seq<seq<string>>)
    returns (more: seq<(string, Bytes)>, ghost after: seq<seq<string>>)
    requires BatchesOk(objects, batches) && BatchOk(objects, batch) && items == Items(objects, Flatten(batches))
    requires forall n | n in batch :: Word(n)
    ensures after == batches + [batch] && BatchesOk(objects, after)
    ensures Flatten(after) == Flatten(batches) + batch && more == Items(objects, Flatten(after))
  {
    hide BatchOk, Items, Flatten;
    var read, failed := BlobBatch(objects, batch);
    more, after := items + read, batches + [batch];
    FlattenSnoc(batches, batch);
    ItemsJoin(objects, Flatten(batches), batch);
  }

  ghost predicate Filling(objects: Objects, batch: seq<string>, total: nat, k: nat) {
    && |batch| <= k
    && (forall n | n in batch :: Fine(objects, n) && Word(n))
    && total == Total(objects, batch)
    && (|batch| <= 1 || total <= BATCH_BYTES)
  }

  lemma FillingSnoc(objects: Objects, batch: seq<string>, total: nat, k: nat, name: string)
    requires Filling(objects, batch, total, k) && Fine(objects, name) && Word(name)
    requires batch == [] || total + |Data(objects, name)| <= BATCH_BYTES
    ensures Filling(objects, batch + [name], total + |Data(objects, name)|, k + 1)
  {
  }

  /**
   Every name is read once, in order, in bounded batches; the reading stops only at a name that is
   no blob or a blob that is too large, and then everything read so far is a prefix of the names.
   */
  method Blobs(objects: Objects, names: seq<string>)
    returns (items: seq<(string, Bytes)>, failed: bool, ghost batches: seq<seq<string>>)
    requires forall n | n in names :: Word(n)
    ensures BatchesOk(objects, batches) && Flatten(batches) <= names
    ensures items == Items(objects, Flatten(batches))
    ensures !failed ==> Flatten(batches) == names
    ensures failed <==> exists n | n in names :: !Fine(objects, n)
  {
    hide BatchOk, Items, Flatten, Word, Total;
    items, failed, batches := [], false, [];
    EmptyBatches(objects);
    var start := 0;
    while start < |names|
      invariant 0 <= start <= |names|
      invariant BatchesOk(objects, batches) && Flatten(batches) == names[..start]
        && items == Items(objects, Flatten(batches))
      invariant forall i | 0 <= i < start :: Fine(objects, names[i])
    {
      var stop := if start + CHUNK < |names| then start + CHUNK else |names|;
      var batch: seq<string>, total: nat := [], 0;
      EmptyFilling(objects);
      for k := start to stop
        invariant BatchesOk(objects, batches) && Flatten(batches) + batch == names[..k]
        invariant items == Items(objects, Flatten(batches))
        invariant Filling(objects, batch, total, k - start)
        invariant forall i | 0 <= i < k :: Fine(objects, names[i])
      {
        var name := names[k];
        assert name in names;
        if !IsBlob(objects, name) {
          assert !Fine(objects, name);
          failed := true;
          return;
        }
        var size := |Data(objects, name)|;
        if batch != [] && total + size > BATCH_BYTES {
          FillingIsBatch(objects, batch, total, k - start);
          items, batches := Emit(objects, items, batch, batches);
          batch, total := [], 0;
          EmptyFilling(objects);
        }
        if size > MAX_BLOB {
          assert !Fine(objects, name);
          failed := true;
          return;
        }
        FillingSnoc(objects, batch, total, k - start, name);
        batch, total := batch + [name], total + size;
      }
      if batch != [] {
        FillingIsBatch(objects, batch, total, stop - start);
        items, batches := Emit(objects, items, batch, batches);
      }
      start := stop;
    }
  }

  lemma EmptyBatches(objects: Objects)
    ensures Flatten([]) == [] && Items(objects, []) == [] && BatchesOk(objects, [])
  {
  }

  lemma EmptyFilling(objects: Objects)
    ensures forall k: nat :: Filling(objects, [], 0, k)
  {
  }

  lemma FillingIsBatch(objects: Objects, batch: seq<string>, total: nat, k: nat)
    requires Filling(objects, batch, total, k) && batch != [] && k <= CHUNK
    ensures BatchOk(objects, batch) && forall n | n in batch :: Word(n)
  {
  }

  // ----- The newest removal of each note -----

  /** One file deleted by one commit; a history lists them newest first. */
  datatype Removal = Removal(commit: string, blob: string, path: string)

  /** What is on record at one HEAD: the deletions on its first-parent line, and the distinct blobs it holds. */
  datatype History = History(removals: seq<Removal>, live: seq<string>)

  /** The objects, and how a note's identity is read from its bytes under a frontmatter key. */
  datatype Vault = Vault(objects: Objects, identity: (Bytes, string) -> Option<string>, key: string)

  function NoteIn(v: Vault, blob: string): Option<string> {
    v.identity(Data(v.objects, blob), v.key)
  }

  datatype Evidence = Evidence(commit: string, blob: string, path: string, data: Bytes)

  predicate Live(v: Vault, h: History, note: string) {
    exists b | b in h.live :: NoteIn(v, b) == Some(note)
  }

  /** The newest deletion of any blob that carries the note. */
  ghost predicate Newest(v: Vault, removals: seq<Removal>, note: string, i: nat) {
    && i < |removals|
    && NoteIn(v, removals[i].blob) == Some(note)
    && forall j | 0 <= j < i :: NoteIn(v, removals[j].blob) != Some(note)
  }

  /** The files one commit deleted with one blob, in the order of the history. */
  function Together(v: Vault, removals: seq<Removal>, commit: string, blob: string): seq<Evidence> {
    if removals == [] then []
    else
      var before, r := Together(v, removals[..|removals| - 1], commit, blob), removals[|removals| - 1];
      if r.commit == commit && r.blob == blob then before + [Evidence(commit, blob, r.path, Data(v.objects, blob))]
        else before
  }

  /** What the search is for: each wanted note that is not live, with its newest deletion, and nothing else. */
  ghost predicate Correct(v: Vault, h: History, wanted: set<string>, removed: map<string, seq<Evidence>>) {
    && (forall note :: note in removed <==> note in wanted && !Live(v, h, note) && exists i: nat ::
      Newest(v, h.removals, note, i))
    && forall note, i: nat | note in removed && Newest(v, h.removals, note, i) ::
         removed[note] == Together(v, h.removals, h.removals[i].commit, h.removals[i].blob)
  }

  // ----- Deletions grouped by blob, in the order of their newest deletion -----

  function OfBlob(removals: seq<Removal>, blob: string): seq<Removal> {
    if removals == [] then []
    else
      var before, r := OfBlob(removals[..|removals| - 1], blob), removals[|removals| - 1];
      if r.blob == blob then before + [r] else before
  }

  function First(removals: seq<Removal>, blob: string): (i: nat)
    ensures i <= |removals| && (i < |removals| ==> removals[i].blob == blob) && forall j | 0 <= j < i ::
      removals[j].blob != blob
  {
    if removals == [] then 0
    else
      var i := First(removals[..|removals| - 1], blob);
      if i < |removals| - 1 || removals[i].blob == blob then i else i + 1
  }

  ghost predicate NewestFirst(removals: seq<Removal>, order: seq<string>) {
    && (forall r | r in removals :: r.blob in order)
    && (forall b | b in order :: First(removals, b) < |removals|)
    && forall i, j | 0 <= i < j < |order| :: First(removals, order[i]) < First(removals, order[j])
  }

  lemma FirstLater(removals: seq<Removal>, r: Removal, blob: string)
    ensures First(removals + [r], blob) == if First(removals, blob) < |removals| || r.blob != blob
                                           then (if First(removals, blob) < |removals| then First(removals, blob)
                                             else |removals| + 1)
                                           else |removals|
    ensures OfBlob(removals + [r], blob) == OfBlob(removals, blob) + if r.blob == blob then [r] else []
  {
    assert (removals + [r])[..|removals + [r]| - 1] == removals;
  }

  /** Appending an older deletion moves no first place already found. */
  lemma FirstKept(removals: seq<Removal>, r: Removal, order: seq<string>)
    requires NewestFirst(removals, order)
    ensures forall b | b in order :: First(removals + [r], b) == First(removals, b) < |removals|
    ensures r.blob !in order ==> First(removals + [r], r.blob) == |removals|
  {
    hide First;
    forall b | b in order ensures First(removals + [r], b) == First(removals, b) < |removals| {
      FirstLater(removals, r, b);
    }
    FirstLater(removals, r, r.blob);
  }

  lemma OrderStep(removals: seq<Removal>, r: Removal, order: seq<string>)
    requires NewestFirst(removals, order)
    ensures r.blob in order ==> NewestFirst(removals + [r], order)
    ensures r.blob !in order ==> NewestFirst(removals + [r], order + [r.blob])
  {
    hide First;
    FirstKept(removals, r, order);
    assert forall i | 0 <= i < |order| :: order[i] in order;
  }

  ghost predicate Grouped(removals: seq<Removal>, order: seq<string>, byBlob: map<string, seq<Removal>>) {
    && (forall b :: b in byBlob <==> b in order)
    && forall b | b in byBlob :: byBlob[b] == OfBlob(removals, b)
  }

  lemma GroupStep(removals: seq<Removal>, r: Removal, order: seq<string>, byBlob: map<string, seq<Removal>>)
    requires NewestFirst(removals, order) && Grouped(removals, order, byBlob)
    ensures r.blob in byBlob ==> Grouped(removals + [r], order, byBlob[r.blob := byBlob[r.blob] + [r]])
    ensures r.blob !in byBlob ==> Grouped(removals + [r], order + [r.blob], byBlob[r.blob := [r]])
  {
    hide First, OfBlob;
    forall b: string ensures OfBlob(removals + [r], b) == OfBlob(removals, b) + if r.blob == b then [r] else [] {
      FirstLater(removals, r, b);
    }
    if r.blob !in order {
      NoneOfBlob(removals, r.blob);
    }
  }

  method Group(removals: seq<Removal>) returns (order: seq<string>, byBlob: map<string, seq<Removal>>)
    ensures NewestFirst(removals, order) && Grouped(removals, order, byBlob)
  {
    hide First, OfBlob;
    order, byBlob := [], map[];
    for i := 0 to |removals|
      invariant NewestFirst(removals[..i], order) && Grouped(removals[..i], order, byBlob)
    {
      var r := removals[i];
      assert removals[..i + 1] == removals[..i] + [r];
      OrderStep(removals[..i], r, order);
      GroupStep(removals[..i], r, order, byBlob);
      hide NewestFirst;
      if r.blob in byBlob {
        byBlob := byBlob[r.blob := byBlob[r.blob] + [r]];
      } else {
        order, byBlob := order + [r.blob], byBlob[r.blob := [r]];
      }
    }
    assert removals[..|removals|] == removals;
  }

  lemma {:induction false} NoneOfBlob(removals: seq<Removal>, blob: string)
    requires forall r | r in removals :: r.blob != blob
    ensures OfBlob(removals, blob) == []
  {
    if removals != [] {
      NoneOfBlob(removals[..|removals| - 1], blob);
      assert removals[|removals| - 1] in removals;
    }
  }

  // ----- The search over the blobs, newest deletion first -----

  /** The first blob of the order that carries the note. */
  ghost predicate FirstCarrier(v: Vault, order: seq<string>, note: string, j: nat) {
    && j < |order|
    && NoteIn(v, order[j]) == Some(note)
    && forall k | 0 <= k < j :: NoteIn(v, order[k]) != Some(note)
  }

  /** The first carrier in the order of newest deletions was deleted by the newest deletion of any carrier. */
  lemma CarrierIsNewest(v: Vault, removals: seq<Removal>, order: seq<string>, note: string, j: nat)
    requires NewestFirst(removals, order) && FirstCarrier(v, order, note, j)
    ensures Newest(v, removals, note, First(removals, order[j]))
  {
    hide First, NoteIn;
    assert order[j] in order;
    var i := First(removals, order[j]);
    forall k | 0 <= k < i ensures NoteIn(v, removals[k].blob) != Some(note) {
      assert removals[k] in removals && removals[k].blob in order;
      var place: nat :| place < |order| && order[place] == removals[k].blob;
      assert First(removals, order[place]) <= k;
    }
  }

  lemma {:induction false} HasFirstCarrier(v: Vault, order: seq<string>, note: string, n: nat) returns (j: nat)
    requires n < |order| && NoteIn(v, order[n]) == Some(note)
    ensures FirstCarrier(v, order, note, j) && j <= n
  {
    if k: nat :| k < n && NoteIn(v, order[k]) == Some(note) {
      j := HasFirstCarrier(v, order, note, k);
    } else {
      j := n;
    }
  }

  /** The blob's deletions by one commit, as the search records them. */
  function ByCommit(v: Vault, rs: seq<Removal>, commit: string): seq<Evidence> {
    if rs == [] then []
    else
      var before, r := ByCommit(v, rs[..|rs| - 1], commit), rs[|rs| - 1];
      if r.commit == commit then before + [Evidence(commit, r.blob, r.path, Data(v.objects, r.blob))] else before
  }

  lemma {:induction false} ByCommitIsTogether(v: Vault, removals: seq<Removal>, commit: string, blob: string)
    ensures ByCommit(v, OfBlob(removals, blob), commit) == Together(v, removals, commit, blob)
  {
    if removals != [] {
      var init, r := removals[..|removals| - 1], removals[|removals| - 1];
      ByCommitIsTogether(v, init, commit, blob);
      assert (OfBlob(init, blob) + [r])[..|OfBlob(init, blob) + [r]| - 1] == OfBlob(init, blob);
    }
  }

  lemma {:induction false} OfBlobStarts(removals: seq<Removal>, blob: string)
    requires First(removals, blob) < |removals|
    ensures OfBlob(removals, blob) != [] && OfBlob(removals, blob)[0] == removals[First(removals, blob)]
  {
    var init := removals[..|removals| - 1];
    if First(init, blob) < |init| {
      OfBlobStarts(init, blob);
    } else {
      forall r | r in init ensures r.blob != blob {
        var k: nat :| k < |init| && init[k] == r;
      }
      NoneOfBlob(init, blob);
    }
  }

  /** What has been found after the first `k` blobs of the order. */
  ghost predicate Found(v: Vault, removals: seq<Removal>, order: seq<string>, k: nat, sought: set<string>,
                        removed: map<string, seq<Evidence>>) {
    && k <= |order|
    && (forall note :: note in removed <==> note in sought && exists j: nat :: j < k && FirstCarrier(v, order, note, j))
    && forall note, j: nat | note in removed && FirstCarrier(v, order, note, j) ::
         First(removals, order[j]) < |removals| &&
         removed[note] == Together(v, removals, removals[First(removals, order[j])].commit, order[j])
  }

  lemma FoundNothing(v: Vault, removals: seq<Removal>, order: seq<string>, sought: set<string>)
    ensures Found(v, removals, order, 0, sought, map[])
  {
  }

  lemma FoundMore(v: Vault, removals: seq<Removal>, order: seq<string>, k: nat, sought: set<string>,
                  removed: map<string, seq<Evidence>>)
    requires NewestFirst(removals, order) && k < |order| && Found(v, removals, order, k, sought, removed)
    ensures var note := NoteIn(v, order[k]);
      if note.Some? && note.value in sought && note.value !in removed then
        First(removals, order[k]) < |removals| &&
        Found(v, removals, order, k + 1, sought,
          removed[note.value := Together(v, removals, removals[First(removals, order[k])].commit, order[k])])
      else Found(v, removals, order, k + 1, sought, removed)
  {
    hide NoteIn, First, Together, NewestFirst;
    assert order[k] in order;
    assert First(removals, order[k]) < |removals| by {
      PlaceKnown(removals, order, order[k]);
    }
    var found := NoteIn(v, order[k]);
    if found.Some? {
      var j := HasFirstCarrier(v, order, found.value, k);
      if found.value in sought && found.value !in removed {
        assert j == k;
      }
    }
  }

  lemma PlaceKnown(removals: seq<Removal>, order: seq<string>, b: string)
    requires NewestFirst(removals, order) && b in order
    ensures First(removals, b) < |removals|
  {
  }

  /** A search that looked at every blob, or stopped with nothing left to seek, has found the newest removals. */
  lemma SearchIsComplete(v: Vault, h: History, wanted: set<string>, order: seq<string>, k: nat, sought: set<string>,
                         removed: map<string, seq<Evidence>>)
    requires NewestFirst(h.removals, order) && Found(v, h.removals, order, k, sought, removed)
    requires sought == set n | n in wanted && !Live(v, h, n)
    requires k == |order| || removed.Keys == sought
    ensures Correct(v, h, wanted, removed)
  {
    hide NoteIn, First, Together, NewestFirst, Live;
    forall note ensures note in removed <==> note in sought && exists i: nat :: Newest(v, h.removals, note, i) {
      if note in removed {
        var j: nat :| j < k && FirstCarrier(v, order, note, j);
        CarrierIsNewest(v, h.removals, order, note, j);
      }
      if i: nat :| note in sought && Newest(v, h.removals, note, i) {
        var n := PlaceOf(h.removals, order, i);
        var j := HasFirstCarrier(v, order, note, n);
      }
    }
    forall note, i: nat | note in removed && Newest(v, h.removals, note, i)
      ensures removed[note] == Together(v, h.removals, h.removals[i].commit, h.removals[i].blob)
    {
      var j: nat :| j < k && FirstCarrier(v, order, note, j);
      CarrierIsNewest(v, h.removals, order, note, j);
    }
  }

  lemma PlaceOf(removals: seq<Removal>, order: seq<string>, i: nat) returns (n: nat)
    requires NewestFirst(removals, order) && i < |removals|
    ensures n < |order| && order[n] == removals[i].blob
  {
    assert removals[i] in removals;
    n :| n < |order| && order[n] == removals[i].blob;
  }

  // ----- The history as the program keeps it -----

  ghost predicate Readable(h: History) {
    (forall n | n in h.live :: Word(n)) && forall r | r in h.removals :: Word(r.blob)
  }

  predicate LiveIn(v: Vault, items: seq<(string, Bytes)>, note: string) {
    exists i | i in items :: v.identity(i.1, v.key) == Some(note)
  }

  lemma {:induction false} ItemAt(objects: Objects, names: seq<string>, i: nat)
    requires i < |names|
    ensures |Items(objects, names)| == |names| && Items(objects, names)[i] == (names[i], Data(objects, names[i]))
  {
    if i < |names| - 1 {
      ItemAt(objects, names[..|names| - 1], i);
    } else if |names| > 1 {
      ItemAt(objects, names[..|names| - 1], 0);
    }
  }

  lemma LiveInAll(v: Vault, h: History, items: seq<(string, Bytes)>, note: string)
    requires items == Items(v.objects, h.live)
    ensures LiveIn(v, items, note) <==> Live(v, h, note)
  {
    hide Data, Items;
    forall i | 0 <= i < |h.live| ensures |items| == |h.live| && items[i] == (h.live[i], Data(v.objects, h.live[i])) {
      ItemAt(v.objects, h.live, i);
    }
    ItemsLength(v.objects, h.live);
    if Live(v, h, note) {
      var b :| b in h.live && NoteIn(v, b) == Some(note);
      var i: nat :| i < |h.live| && h.live[i] == b;
      assert items[i] in items;
    }
    if LiveIn(v, items, note) {
      var it :| it in items && v.identity(it.1, v.key) == Some(note);
      var i: nat :| i < |items| && items[i] == it;
      assert NoteIn(v, h.live[i]) == Some(note);
    }
  }

  lemma {:induction false} ItemsLength(objects: Objects, names: seq<string>)
    ensures |Items(objects, names)| == |names|
  {
    if names != [] {
      ItemAt(objects, names, 0);
    }
  }

  /** The search of one HEAD: newest deletions first, until nothing is left to seek. */
  method Load(v: Vault, h: History, wanted: set<string>) returns (loaded: Option<map<string, seq<Evidence>>>)
    requires Readable(h)
    ensures loaded.Some? ==> Correct(v, h, wanted, loaded.value)
    ensures loaded.None? ==> (exists n | n in h.live :: !Fine(v.objects, n)) || exists r | r in h.removals ::
      !Fine(v.objects, r.blob)
  {
    hide Items, Data, NewestFirst, Grouped, Correct, BatchesOk, Fine, Found, LiveIn, Live, Together, ByCommit,
      OfBlob, Word;
    var liveItems, broken, batches := Blobs(v.objects, h.live);
    if broken {
      return None;
    }
    forall note ensures LiveIn(v, liveItems, note) <==> Live(v, h, note) {
      LiveInAll(v, h, liveItems, note);
    }
    var sought := set n | n in wanted && !LiveIn(v, liveItems, n);
    assert sought == set n | n in wanted && !Live(v, h, n);
    var order, byBlob := Group(h.removals);
    var removed: map<string, seq<Evidence>> := map[];
    FoundNothing(v, h.removals, order, sought);
    if sought == {} {
      SearchIsComplete(v, h, wanted, order, 0, sought, removed);
      return Some(removed);
    }
    OrderWords(h, order);
    var items, failed, readBatches := Blobs(v.objects, order);
    ItemsLength(v.objects, Flatten(readBatches));
    var k := 0;
    while k < |items|
      invariant 0 <= k <= |items|
      invariant Found(v, h.removals, order, k, sought, removed)
    {
      ItemAt(v.objects, Flatten(readBatches), k);
      assert Flatten(readBatches)[k] == order[k];
      var note := v.identity(items[k].1, v.key);
      FoundMore(v, h.removals, order, k, sought, removed);
      if note.Some? && note.value in sought - removed.Keys {
        GroupedHead(h.removals, order, byBlob, order[k]);
        var group := byBlob[items[k].0];
        ByCommitIsTogether(v, h.removals, group[0].commit, order[k]);
        removed := removed[note.value := ByCommit(v, group, group[0].commit)];
        if sought - removed.Keys == {} {
          OnlySought(v, h.removals, order, k + 1, sought, removed);
          SearchIsComplete(v, h, wanted, order, k + 1, sought, removed);
          return Some(removed);
        }
      }
      k := k + 1;
    }
    if failed {
      BadRemoval(v, h, order);
      return None;
    }
    SearchIsComplete(v, h, wanted, order, k, sought, removed);
    return Some(removed);
  }

  lemma OnlySought(v: Vault, removals: seq<Removal>, order: seq<string>, k: nat, sought: set<string>,
                   removed: map<string, seq<Evidence>>)
    requires Found(v, removals, order, k, sought, removed) && sought - removed.Keys == {}
    ensures removed.Keys == sought
  {
    assert forall n | n in sought :: n !in sought - removed.Keys ==> n in removed;
  }

  lemma OrderWords(h: History, order: seq<string>)
    requires Readable(h) && NewestFirst(h.removals, order)
    ensures forall n | n in order :: Word(n)
  {
    forall n | n in order ensures Word(n) {
      assert h.removals[First(h.removals, n)] in h.removals;
    }
  }

  lemma BadRemoval(v: Vault, h: History, order: seq<string>)
    requires NewestFirst(h.removals, order) && exists n | n in order :: !Fine(v.objects, n)
    ensures exists r | r in h.removals :: !Fine(v.objects, r.blob)
  {
    var n :| n in order && !Fine(v.objects, n);
    assert h.removals[First(h.removals, n)] in h.removals;
  }

  lemma GroupedHead(removals: seq<Removal>, order: seq<string>, byBlob: map<string, seq<Removal>>, b: string)
    requires NewestFirst(removals, order) && Grouped(removals, order, byBlob) && b in order
    ensures b in byBlob && byBlob[b] == OfBlob(removals, b) && byBlob[b] != []
    ensures First(removals, b) < |removals| && byBlob[b][0] == removals[First(removals, b)]
  {
    OfBlobStarts(removals, b);
  }

  lemma {:induction false} TogetherHas(v: Vault, removals: seq<Removal>, commit: string, blob: string, e: Evidence)
    ensures e in Together(v, removals, commit, blob) <==>
      e.commit == commit && e.blob == blob && e.data == Data(v.objects, blob)
        && Removal(commit, blob, e.path) in removals
  {
    if removals != [] {
      var init, last := removals[..|removals| - 1], removals[|removals| - 1];
      TogetherHas(v, init, commit, blob, e);
      Seqs.SplitLast(removals);
      assert Removal(commit, blob, e.path) in removals <==>
        Removal(commit, blob, e.path) in init || Removal(commit, blob, e.path) == last;
    }
  }

  ghost predicate Evident(removed: map<string, seq<Evidence>>, note: string, path: string, content: Bytes) {
    note in removed && exists e | e in removed[note] :: e.path == path && e.data == content
  }

  /**
   There is evidence that a path and content of a note were removed exactly when the newest
   deletion of the note has that content and its commit deleted that path with it; an older
   deletion never counts.
   */
  lemma EvidenceIsNewestExactly(v: Vault, h: History, wanted: set<string>, removed: map<string, seq<Evidence>>,
                                note: string, path: string, content: Bytes)
    requires Correct(v, h, wanted, removed)
    ensures Evident(removed, note, path, content) <==>
      note in wanted && !Live(v, h, note) && exists i: nat ::
        && Newest(v, h.removals, note, i)
        && Data(v.objects, h.removals[i].blob) == content
        && Removal(h.removals[i].commit, h.removals[i].blob, path) in h.removals
  {
    hide Live, Data, NoteIn, Together;
    if note in removed {
      var i: nat :| Newest(v, h.removals, note, i);
      var commit, blob := h.removals[i].commit, h.removals[i].blob;
      forall e: Evidence ensures e in removed[note] <==>
          e.commit == commit && e.blob == blob && e.data == Data(v.objects, blob)
            && Removal(commit, blob, e.path) in h.removals {
        TogetherHas(v, h.removals, commit, blob, e);
      }
      if Data(v.objects, blob) == content && Removal(commit, blob, path) in h.removals {
        assert Evidence(commit, blob, path, content) in removed[note];
      }
      forall j: nat | Newest(v, h.removals, note, j) ensures j == i {
      }
    }
  }

  /** When one commit deletes two different contents of a note, only the first counts as evidence. */
  lemma SecondCopyOverlooked(v: Vault, removed: map<string, seq<Evidence>>, a: string, b: string, note: string)
    requires a != b && NoteIn(v, a) == Some(note) && NoteIn(v, b) == Some(note)
      && Data(v.objects, a) != Data(v.objects, b)
    requires Correct(v, History([Removal("c", a, "one.md"), Removal("c", b, "two.md")], []), {note}, removed)
    ensures Evident(removed, note, "one.md", Data(v.objects, a))
      && !Evident(removed, note, "two.md", Data(v.objects, b))
  {
    hide Data, NoteIn;
    var h := History([Removal("c", a, "one.md"), Removal("c", b, "two.md")], []);
    assert Newest(v, h.removals, note, 0);
    assert Removal("c", a, "one.md") in h.removals && !Live(v, h, note);
    EvidenceIsNewestExactly(v, h, {note}, removed, note, "one.md", Data(v.objects, a));
    EvidenceIsNewestExactly(v, h, {note}, removed, note, "two.md", Data(v.objects, b));
    forall i: nat | Newest(v, h.removals, note, i) ensures i == 0 {
    }
  }

  class GitHistory {
    const objects: Objects
    const identity: (Bytes, string) -> Option<string>
    /** What each commit has behind it; a commit never changes. */
    const histories: map<string, History>
    var head: Option<string>
    var key: string
    var wanted: set<string>
    var removed: map<string, seq<Evidence>>
    var available: bool
    var statusHead: Option<string>

    ghost predicate Valid()
      reads this
    {
      && (forall h | h in histories :: Readable(histories[h]))
      && (head.Some? ==>
        available && head.value in histories
        && Correct(Vault(objects, identity, key), histories[head.value], wanted, removed))
      && (head.None? ==> removed == map[])
    }

    constructor (objects: Objects, identity: (Bytes, string) -> Option<string>, histories: map<string, History>)
      requires forall h | h in histories :: Readable(histories[h])
      ensures Valid() && !available
    {
      this.objects, this.identity, this.histories := objects, identity, histories;
      head, key, wanted, removed, available, statusHead := None, "", {}, map[], false, None;
    }

    /** The record answers for a HEAD, a frontmatter key and some notes already. */
    predicate Covers(current: string, key: string, wanted: set<string>)
      reads this
    {
      head == Some(current) && this.key == key && wanted <= this.wanted
    }

    /**
     Look at Git again; `current` is what HEAD resolves to, if Git answers. Afterwards the record
     holds, for the notes asked for, exactly their newest removals at that HEAD, or nothing.
     */
    method Refresh(current: Option<string>, key: string, enabled: bool, wanted: Option<set<string>>)
      requires Valid() && (current.Some? ==> current.value in histories)
      modifies this
      ensures Valid()
      ensures wanted.Some? && available ==>
        head == current && current.Some? && this.key == key && wanted.value <= this.wanted
      ensures wanted.Some? && !available ==> removed == map[]
      ensures !enabled || current.None? ==> !available && removed == map[] && head.None?
      ensures enabled && current.Some? && wanted.Some? && available ==>
        if old(Covers(current.value, key, wanted.value)) then removed == old(removed) && this.wanted == old(this.wanted)
        else this.wanted == wanted.value
      ensures enabled && current.Some? && wanted.Some? && old(Covers(current.value, key, wanted.value)) ==> available
      ensures enabled && current.Some? && wanted.None? ==>
        && removed == old(removed) && head == old(head) && this.key == old(this.key) && this.wanted == old(this.wanted)
        && (available <==> old(available) || old(statusHead) != current)
      ensures wanted.Some? && enabled && current.Some? && !available ==>
        (exists n | n in histories[current.value].live :: !Fine(objects, n)) ||
        exists r | r in histories[current.value].removals :: !Fine(objects, r.blob)
    {
      if !enabled || current.None? {
        removed, head, available, statusHead := map[], None, false, None;
        return;
      }
      if wanted.Some? && (head != current || key != this.key || !(wanted.value <= this.wanted)) {
        var loaded := Load(Vault(objects, identity, key), histories[current.value], wanted.value);
        if loaded.None? {
          removed, head, available, statusHead := map[], None, false, current;
          return;
        }
        removed, head, this.key, this.wanted := loaded.value, current, key, wanted.value;
      }
      if wanted.None? && !available && statusHead == current {
        return;
      }
      available, statusHead := true, current;
    }

    method FindEvidence(note: string, path: string, content: Bytes) returns (found: Option<Evidence>)
      requires Valid()
      ensures found.Some? <==> Evident(removed, note, path, content)
      ensures found.Some? ==> found.value in removed[note] && found.value.path == path && found.value.data == content
    {
      if note !in removed || removed[note] == [] {
        return None;
      }
      var candidates := removed[note];
      OneCommit(note);
      for i := 0 to |candidates|
        invariant forall j | 0 <= j < i :: candidates[j].path != path || candidates[j].data != content
      {
        if candidates[i].commit != candidates[0].commit {
          break;
        }
        if candidates[i].path == path && candidates[i].data == content {
          return Some(candidates[i]);
        }
      }
      return None;
    }

    lemma OneCommit(note: string)
      requires Valid() && note in removed
      ensures forall i, j | 0 <= i < |removed[note]| && 0 <= j < |removed[note]| ::
        removed[note][i].commit == removed[note][j].commit
    {
      var v, h := Vault(objects, identity, key), histories[head.value];
      var i: nat :| Newest(v, h.removals, note, i);
      forall k | 0 <= k < |removed[note]| ensures removed[note][k].commit == h.removals[i].commit {
        TogetherHas(v, h.removals, h.removals[i].commit, h.removals[i].blob, removed[note][k]);
      }
    }
  }
}
