/**
 The calendar mirror and the catalog file it is rebuilt from: the printer that groups
 evidence by contact, the streaming reader that takes the printed tokens apart again, and
 the exact condition under which a rebuild restores what was written.
 */
module CalendarMirror {
  import opened Results
  import opened Ordering
  import opened CalendarImport
  import Seqs

  // ----- Evidence records -----

  /** A JSON object of strings as it is encoded with sorted keys. */
  type Record = seq<(string, string)>

  datatype Row = Row(contact: string, record: Record)

  ghost predicate Canonical(r: Record) {
    forall i, j | 0 <= i < j < |r| :: Less(r[i].0, r[j].0)
  }

  /** Assign one key of the dictionary behind an encoded record. */
  function Put(r: Record, key: string, value: string): Record {
    if r == [] then [(key, value)]
    else if key == r[0].0 then [(key, value)] + r[1..]
    else if Less(key, r[0].0) then [(key, value)] + r
    else [r[0]] + Put(r[1..], key, value)
  }

  lemma {:induction false} PutLast(r: Record, key: string, value: string)
    requires forall i | 0 <= i < |r| :: Less(r[i].0, key)
    ensures Put(r, key, value) == r + [(key, value)]
  {
    if r != [] {
      LessIrreflexive(key);
      if Less(key, r[0].0) {
        LessTransitive(key, r[0].0, key);
      }
      PutLast(r[1..], key, value);
    }
  }

  function EvidenceOf(event: Event, person: Person, source: string): Record {
    [("address", person.address), ("event_id", event.identity), ("name", person.name),
     ("participation", person.participation), ("role", person.role), ("source_import", source)]
  }

  lemma EvidenceIsCanonical(event: Event, person: Person, source: string)
    ensures Canonical(EvidenceOf(event, person, source))
  {
  }

  // ----- Tokens of the `contact_records` section -----

  datatype Token = LBrace | RBrace | LBracket | RBracket | Colon | Comma | Text(s: string)

  function FieldTokens(fields: Record, first: bool): seq<Token> {
    if fields == [] then []
    else (if first then [] else [Comma])
         + [Text(fields[0].0), Colon, Text(fields[0].1)]
         + FieldTokens(fields[1..], false)
  }

  function RecordTokens(r: Record): seq<Token> {
    [LBrace] + FieldTokens(r, true) + [RBrace]
  }

  function Heading(contact: string): seq<Token> {
    [Text(contact), Colon, LBrace]
    + [Text("id"), Colon, Text(contact), Comma]
    + [Text("evidence"), Colon, LBracket]
  }

  function Close(previous: Option<string>): seq<Token> {
    if previous.Some? then [RBracket, RBrace] else []
  }

  /** What has to be printed before a row of `contact`. */
  function Lead(previous: Option<string>, contact: string): seq<Token> {
    if previous == Some(contact) then [Comma]
    else (if previous.Some? then [RBracket, RBrace, Comma] else []) + Heading(contact)
  }

  /** What is printed for `rows` when the group of `previous` is still open. */
  function PrintedFrom(previous: Option<string>, rows: seq<Row>): seq<Token>
    decreases rows
  {
    if rows == [] then Close(previous)
    else
      Lead(previous, rows[0].contact) + RecordTokens(rows[0].record)
      + PrintedFrom(Some(rows[0].contact), rows[1..])
  }

  function Printed(rows: seq<Row>): seq<Token> {
    [LBrace] + PrintedFrom(None, rows) + [RBrace]
  }

  /** The grouping writer: one pass over the rows, with separators and an open group. */
  method WriteContacts(rows: seq<Row>) returns (out: seq<Token>)
    ensures out == Printed(rows)
  {
    out := [LBrace];
    var previous: Option<string> := None;
    var separator: seq<Token> := [];
    var itemSeparator: seq<Token> := [];
    for i := 0 to |rows|
      invariant separator == if previous.Some? then [Comma] else []
      invariant previous.Some? ==> itemSeparator == [Comma]
      invariant out + PrintedFrom(previous, rows[i..]) == [LBrace] + PrintedFrom(None, rows)
    {
      ghost var before, previously := out, previous;
      var row := rows[i];
      assert rows[i..][0] == row && rows[i..][1..] == rows[i + 1..];
      LeadPieces(out, previous, row.contact);
      if previous != Some(row.contact) {
        if previous.Some? {
          out := out + [RBracket, RBrace];
        }
        out := out + separator + Heading(row.contact);
        previous := Some(row.contact);
        separator := [Comma];
        itemSeparator := [];
      }
      out := out + itemSeparator;
      out := out + RecordTokens(row.record);
      itemSeparator := [Comma];
      PrintOne(before, previously, rows[i..]);
    }
    out := out + Close(previous);
    out := out + [RBrace];
  }

  /** The writer puts a lead down piece by piece. */
  lemma LeadPieces(out: seq<Token>, previous: Option<string>, contact: string)
    ensures previous == Some(contact) ==> out + [Comma] == out + Lead(previous, contact)
    ensures previous.Some? && previous != Some(contact) ==>
              out + [RBracket, RBrace] + [Comma] + Heading(contact) + [] == out + Lead(previous, contact)
    ensures previous == None ==> out + [] + Heading(contact) + [] == out + Lead(previous, contact)
  {
    if previous.Some? && previous != Some(contact) {
      Seqs.Assoc(out, [RBracket, RBrace], [Comma]);
      assert [RBracket, RBrace] + [Comma] == [RBracket, RBrace, Comma];
      Seqs.Assoc(out, [RBracket, RBrace, Comma], Heading(contact));
    } else if previous == None {
      assert [] + Heading(contact) == Heading(contact);
    }
  }

  lemma PrintOne(out: seq<Token>, previous: Option<string>, rows: seq<Row>)
    requires rows != []
    ensures out + Lead(previous, rows[0].contact) + RecordTokens(rows[0].record)
            + PrintedFrom(Some(rows[0].contact), rows[1..]) == out + PrintedFrom(previous, rows)
  {
    var lead, record, tail := Lead(previous, rows[0].contact), RecordTokens(rows[0].record),
      PrintedFrom(Some(rows[0].contact), rows[1..]);
    Seqs.Assoc(out, lead, record);
    Seqs.Assoc(out, lead + record, tail);
  }

  // ----- The JSON event stream -----

  datatype Frame = InObject(key: string) | InArray

  datatype Position = Value | FirstKey | NextKey | AfterKey | FirstItem | AfterValue

  datatype Parser = Parser(stack: seq<Frame>, at: Position)

  datatype Kind = StartMap | EndMap | MapKey | StartArray | EndArray | String

  /** One parse event with the path of keys (and "item" for array members) it happened at. */
  datatype JsonEvent = JsonEvent(prefix: seq<string>, kind: Kind, value: string)

  function Prefix(stack: seq<Frame>): (p: seq<string>)
    ensures |p| == |stack|
  {
    seq(|stack|, i requires 0 <= i < |stack| => match stack[i] case InObject(key) => key case InArray => "item")
  }

  function Outer(stack: seq<Frame>): seq<Frame>
    requires stack != []
  {
    stack[..|stack| - 1]
  }

  datatype Parsed = Malformed | Parsed(parser: Parser, event: Option<JsonEvent>)

  /** The JSON grammar, one token at a time. */
  function Parse(p: Parser, t: Token): Parsed {
    if p.stack == [] then Malformed
    else
      var top := p.stack[|p.stack| - 1];
      match t
      case LBrace =>
        if p.at.Value? || p.at.FirstItem?
        then Parsed(Parser(p.stack + [InObject("")], FirstKey), Some(JsonEvent(Prefix(p.stack), StartMap, "")))
        else Malformed
      case LBracket =>
        if p.at.Value? || p.at.FirstItem?
        then Parsed(Parser(p.stack + [InArray], FirstItem), Some(JsonEvent(Prefix(p.stack), StartArray, "")))
        else Malformed
      case RBrace =>
        if top.InObject? && (p.at.FirstKey? || p.at.AfterValue?)
        then Parsed(Parser(Outer(p.stack), AfterValue), Some(JsonEvent(Prefix(Outer(p.stack)), EndMap, "")))
        else Malformed
      case RBracket =>
        if top.InArray? && (p.at.FirstItem? || p.at.AfterValue?)
        then Parsed(Parser(Outer(p.stack), AfterValue), Some(JsonEvent(Prefix(Outer(p.stack)), EndArray, "")))
        else Malformed
      case Comma =>
        if p.at.AfterValue? then Parsed(p.(at := if top.InObject? then NextKey else Value), None) else Malformed
      case Colon =>
        if p.at.AfterKey? then Parsed(p.(at := Value), None) else Malformed
      case Text(s) =>
        if p.at.FirstKey? || p.at.NextKey?
        then Parsed(Parser(Outer(p.stack) + [InObject(s)], AfterKey),
          Some(JsonEvent(Prefix(Outer(p.stack)), MapKey, s)))
        else if p.at.Value? || p.at.FirstItem?
        then Parsed(p.(at := AfterValue), Some(JsonEvent(Prefix(p.stack), String, s)))
        else Malformed
  }

  // ----- The streaming reader of `contact_records` -----

  datatype Collector = Collector(contact: string, record: Option<Record>, field: string, found: bool, rows: set<Row>)

  predicate AtEvidenceItem(prefix: seq<string>) {
    |prefix| > 2 && prefix[|prefix| - 2..] == ["evidence", "item"]
  }

  /** One parser event: it may open, extend or close the evidence record being built. */
  function Collect(c: Collector, e: JsonEvent): Collector {
    if e.prefix == ["contact_records"] && e.kind.MapKey? then c.(contact := e.value, found := true)
    else if AtEvidenceItem(e.prefix) then
      if e.kind.StartMap? then c.(record := Some([]))
      else if e.kind.MapKey? then c.(field := e.value)
      else if e.kind.EndMap? && c.record.Some?
      then c.(rows := c.rows + {Row(c.contact, c.record.value)}, record := None)
      else c
    else if c.record.Some? && e.kind.String? then c.(record := Some(Put(c.record.value, c.field, e.value)))
    else c
  }

  datatype Reader = Reader(parser: Parser, collector: Collector)

  function Step(r: Reader, t: Token): Option<Reader> {
    match Parse(r.parser, t)
    case Malformed => None
    case Parsed(p, None) => Some(Reader(p, r.collector))
    case Parsed(p, Some(e)) => Some(Reader(p, Collect(r.collector, e)))
  }

  function Run(r: Reader, tokens: seq<Token>): Option<Reader>
    decreases tokens
  {
    if tokens == [] then Some(r)
    else match Step(r, tokens[0]) case None => None case Some(next) => Run(next, tokens[1..])
  }

  const Section := [InObject("contact_records")]

  const AtStart := Reader(Parser(Section, Value), Collector("", None, "", false, {}))

  predicate Complete(r: Reader) {
    r.parser == Parser(Section, AfterValue)
  }

  /** The reading loop. */
  method ReadContacts(tokens: seq<Token>) returns (result: Option<Collector>)
    ensures result == match Run(AtStart, tokens)
                      case Some(r) => (if Complete(r) then Some(r.collector) else None)
                      case None => None
  {
    var reader := AtStart;
    for i := 0 to |tokens|
      invariant Run(AtStart, tokens) == Run(reader, tokens[i..])
    {
      assert tokens[i..][0] == tokens[i] && tokens[i..][1..] == tokens[i + 1..];
      match Parse(reader.parser, tokens[i]) {
        case Malformed => return None;
        case Parsed(p, None) => reader := Reader(p, reader.collector);
        case Parsed(p, Some(e)) => reader := Reader(p, Collect(reader.collector, e));
      }
    }
    return if Complete(reader) then Some(reader.collector) else None;
  }

  // ----- Reading undoes printing -----

  lemma {:induction false} RunConcat(r: Reader, a: seq<Token>, b: seq<Token>)
    ensures Run(r, a + b) == match Run(r, a) case Some(m) => Run(m, b) case None => None
    decreases a
  {
    if a == [] {
      assert a + b == b;
    } else {
      assert (a + b)[1..] == a[1..] + b;
      if Step(r, a[0]).Some? {
        RunConcat(Step(r, a[0]).value, a[1..], b);
      }
    }
  }

  lemma RunOne(r: Reader, t: Token)
    ensures Run(r, [t]) == Step(r, t)
  {
    assert [t][1..] == [];
  }

  function Group(contact: string): seq<Frame> {
    [InObject("contact_records"), InObject(contact), InObject("evidence"), InArray]
  }

  lemma GroupPrefix(contact: string, key: string)
    ensures Prefix(Group(contact)) == ["contact_records", contact, "evidence", "item"]
    ensures AtEvidenceItem(Prefix(Group(contact)))
    ensures Prefix(Group(contact) + [InObject(key)]) == ["contact_records", contact, "evidence", "item", key]
  {
    assert Prefix(Group(contact))[2..] == ["evidence", "item"];
  }

  /** The reader inside an evidence array, with no record open. */
  function InGroup(contact: string, at: Position, field: string, rows: set<Row>): Reader {
    Reader(Parser(Group(contact), at), Collector(contact, None, field, true, rows))
  }

  /** The reader inside one evidence record, having read the fields `done`. */
  function InRecord(contact: string, key: string, at: Position, done: Record, field: string, rows: set<Row>): Reader {
    Reader(Parser(Group(contact) + [InObject(key)], at), Collector(contact, Some(done), field, true, rows))
  }

  lemma RunNext(r: Reader, next: Reader, tokens: seq<Token>, i: nat)
    requires i < |tokens| && Step(r, tokens[i]) == Some(next)
    ensures Run(r, tokens[i..]) == Run(next, tokens[i + 1..])
  {
    assert tokens[i..][1..] == tokens[i + 1..];
  }

  lemma NothingRead(r: Reader)
    ensures Run(r, []) == Some(r)
  {
  }

  function LastKey(key: string, fields: Record): string {
    if fields == [] then key else fields[|fields| - 1].0
  }

  /** One more field of an open record. */
  lemma PairRead(contact: string, key: string, done: Record, k: string, v: string, field: string, rows: set<Row>)
    requires forall i | 0 <= i < |done| :: Less(done[i].0, k)
    requires Canonical(done)
    ensures Run(InRecord(contact, key, if done == [] then FirstKey else AfterValue, done, field, rows),
                (if done == [] then [] else [Comma]) + [Text(k), Colon, Text(v)]) ==
            Some(InRecord(contact, k, AfterValue, done + [(k, v)], k, rows))
  {
    hide Run, Group;
    GroupPrefix(contact, k);
    assert Outer(Group(contact) + [InObject(key)]) == Group(contact);
    PutLast(done, k, v);
    var r0 := InRecord(contact, key, if done == [] then FirstKey else AfterValue, done, field, rows);
    var r1 := InRecord(contact, key, if done == [] then FirstKey else NextKey, done, field, rows);
    var lead: seq<Token> := if done == [] then [] else [Comma];
    assert Run(r0, lead) == Some(r1) by {
      if done != [] {
        RunOne(r0, Comma);
      } else {
        NothingRead(r0);
      }
    }
    var r2 := InRecord(contact, k, AfterKey, done, k, rows);
    var r3 := InRecord(contact, k, Value, done, k, rows);
    var r4 := InRecord(contact, k, AfterValue, done + [(k, v)], k, rows);
    var pair := [Text(k), Colon, Text(v)];
    RunNext(r1, r2, pair, 0);
    RunNext(r2, r3, pair, 1);
    RunNext(r3, r4, pair, 2);
    assert pair[0..] == pair && pair[3..] == [];
    NothingRead(r4);
    RunConcat(r0, lead, pair);
  }

  lemma PutNext(done: Record, fields: Record)
    requires Canonical(done + fields) && fields != []
    ensures Canonical(done) && forall i | 0 <= i < |done| :: Less(done[i].0, fields[0].0)
    ensures done + [fields[0]] + fields[1..] == done + fields
  {
    assert forall i | 0 <= i < |done| :: (done + fields)[i] == done[i];
    assert (done + fields)[|done|] == fields[0];
  }

  lemma {:induction false} FieldsRead(contact: string, key: string, done: Record, fields: Record, field: string,
                                      rows: set<Row>)
    requires Canonical(done + fields)
    ensures Run(InRecord(contact, key, if done == [] then FirstKey else AfterValue, done, field, rows),
                FieldTokens(fields, done == [])) ==
            Some(InRecord(contact, LastKey(key, fields), if done + fields == [] then FirstKey else AfterValue,
                          done + fields, LastKey(field, fields), rows))
    decreases fields
  {
    hide Run, InRecord, Canonical;
    if fields == [] {
      NothingRead(InRecord(contact, key, if done == [] then FirstKey else AfterValue, done, field, rows));
      assert done + fields == done;
    } else {
      var (k, v) := fields[0];
      PutNext(done, fields);
      PairRead(contact, key, done, k, v, field, rows);
      FieldsRead(contact, k, done + [(k, v)], fields[1..], k, rows);
      RunConcat(InRecord(contact, key, if done == [] then FirstKey else AfterValue, done, field, rows),
                (if done == [] then [] else [Comma]) + [Text(k), Colon, Text(v)], FieldTokens(fields[1..], false));
    }
  }

  lemma RecordRead(contact: string, at: Position, field: string, rows: set<Row>, record: Record)
    requires at == FirstItem || at == Value
    requires Canonical(record)
    ensures Run(InGroup(contact, at, field, rows), RecordTokens(record)) ==
            Some(InGroup(contact, AfterValue, LastKey(field, record), rows + {Row(contact, record)}))
  {
    hide Run, Group, FieldTokens, Canonical;
    GroupPrefix(contact, "");
    var r0 := InGroup(contact, at, field, rows);
    var r1 := InRecord(contact, "", FirstKey, [], field, rows);
    RunOne(r0, LBrace);
    assert [] + record == record;
    FieldsRead(contact, "", [], record, field, rows);
    var key := LastKey("", record);
    var r2 := InRecord(contact, key, if record == [] then FirstKey else AfterValue, record, LastKey(field, record),
      rows);
    assert Outer(Group(contact) + [InObject(key)]) == Group(contact);
    RunOne(r2, RBrace);
    RunConcat(r0, [LBrace], FieldTokens(record, true));
    RunConcat(r0, [LBrace] + FieldTokens(record, true), [RBrace]);
  }

  function Open(path: seq<Frame>, at: Position, contact: string, field: string, found: bool, rows: set<Row>): Reader {
    Reader(Parser(Section + path, at), Collector(contact, None, field, found, rows))
  }

  lemma SectionPrefix(a: string, b: string)
    ensures Prefix(Section) == ["contact_records"]
    ensures Prefix(Section + [InObject(a)]) == ["contact_records", a]
    ensures Prefix(Section + [InObject(a), InObject(b)]) == ["contact_records", a, b]
    ensures b != "item" ==> !AtEvidenceItem(Prefix(Section + [InObject(a), InObject(b)]))
    ensures Outer(Section + [InObject(a)]) == Section
    ensures Outer(Section + [InObject(a), InObject(b)]) == Section + [InObject(a)]
    ensures Outer(Group(a)) == Section + [InObject(a), InObject("evidence")]
  {
    assert Prefix(Section + [InObject(a), InObject(b)])[1..] == [a, b];
  }

  lemma ContactRead(at: Position, key: string, was: string, contact: string, field: string, found: bool, rows: set<Row>)
    requires at == FirstKey || at == NextKey
    ensures Run(Open([InObject(key)], at, was, field, found, rows), [Text(contact), Colon, LBrace]) ==
            Some(Open([InObject(contact), InObject("")], FirstKey, contact, field, true, rows))
  {
    SectionPrefix(key, "");
    SectionPrefix(contact, "");
    var h := [Text(contact), Colon, LBrace];
    var r0 := Open([InObject(key)], at, was, field, found, rows);
    var r1 := Open([InObject(contact)], AfterKey, contact, field, true, rows);
    var r2 := Open([InObject(contact)], Value, contact, field, true, rows);
    var r3 := Open([InObject(contact), InObject("")], FirstKey, contact, field, true, rows);
    RunNext(r0, r1, h, 0);
    RunNext(r1, r2, h, 1);
    assert r2.parser.stack + [InObject("")] == r3.parser.stack;
    RunNext(r2, r3, h, 2);
    assert h[0..] == h && h[3..] == [];
  }

  lemma IdRead(contact: string, field: string, rows: set<Row>)
    ensures Run(Open([InObject(contact), InObject("")], FirstKey, contact, field, true, rows),
                [Text("id"), Colon, Text(contact), Comma]) ==
            Some(Open([InObject(contact), InObject("id")], NextKey, contact, field, true, rows))
  {
    SectionPrefix(contact, "");
    SectionPrefix(contact, "id");
    var h := [Text("id"), Colon, Text(contact), Comma];
    var r0 := Open([InObject(contact), InObject("")], FirstKey, contact, field, true, rows);
    var r1 := Open([InObject(contact), InObject("id")], AfterKey, contact, field, true, rows);
    assert Section + [InObject(contact)] + [InObject("id")] == r1.parser.stack;
    var r2 := r1.(parser := r1.parser.(at := Value));
    var r3 := r1.(parser := r1.parser.(at := AfterValue));
    var r4 := r1.(parser := r1.parser.(at := NextKey));
    RunNext(r0, r1, h, 0);
    RunNext(r1, r2, h, 1);
    RunNext(r2, r3, h, 2);
    RunNext(r3, r4, h, 3);
    assert h[0..] == h && h[4..] == [];
  }

  lemma EvidenceRead(contact: string, field: string, rows: set<Row>)
    ensures Run(Open([InObject(contact), InObject("id")], NextKey, contact, field, true, rows),
                [Text("evidence"), Colon, LBracket]) == Some(InGroup(contact, FirstItem, field, rows))
  {
    SectionPrefix(contact, "id");
    SectionPrefix(contact, "evidence");
    var h := [Text("evidence"), Colon, LBracket];
    var r0 := Open([InObject(contact), InObject("id")], NextKey, contact, field, true, rows);
    var r1 := Open([InObject(contact), InObject("evidence")], AfterKey, contact, field, true, rows);
    assert Section + [InObject(contact)] + [InObject("evidence")] == r1.parser.stack;
    var r2 := r1.(parser := r1.parser.(at := Value));
    RunNext(r0, r1, h, 0);
    RunNext(r1, r2, h, 1);
    assert r2.parser.stack + [InArray] == Group(contact);
    RunNext(r2, InGroup(contact, FirstItem, field, rows), h, 2);
    assert h[0..] == h && h[3..] == [];
  }

  /** A group heading leaves the reader inside the new group. */
  lemma HeadingRead(at: Position, key: string, was: string, contact: string, field: string, found: bool, rows: set<Row>)
    requires at == FirstKey || at == NextKey
    ensures Run(Open([InObject(key)], at, was, field, found, rows), Heading(contact)) ==
            Some(InGroup(contact, FirstItem, field, rows))
  {
    var r := Open([InObject(key)], at, was, field, found, rows);
    var a, b := [Text(contact), Colon, LBrace], [Text("id"), Colon, Text(contact), Comma];
    ContactRead(at, key, was, contact, field, found, rows);
    IdRead(contact, field, rows);
    EvidenceRead(contact, field, rows);
    RunConcat(r, a, b);
    RunConcat(r, a + b, [Text("evidence"), Colon, LBracket]);
  }

  /** Closing a group leaves the reader behind the contact's object. */
  lemma CloseRead(contact: string, field: string, rows: set<Row>)
    ensures Run(InGroup(contact, AfterValue, field, rows), [RBracket, RBrace]) ==
            Some(Open([InObject(contact)], AfterValue, contact, field, true, rows))
  {
    SectionPrefix(contact, "evidence");
    var r0 := InGroup(contact, AfterValue, field, rows);
    var r1 := Open([InObject(contact), InObject("evidence")], AfterValue, contact, field, true, rows);
    var r2 := Open([InObject(contact)], AfterValue, contact, field, true, rows);
    var close := [RBracket, RBrace];
    RunNext(r0, r1, close, 0);
    RunNext(r1, r2, close, 1);
    assert close[0..] == close && close[2..] == [];
  }

  /** The reader before a row: at the start of the object, or behind a row of `previous`. */
  function Before(previous: Option<string>, field: string, rows: set<Row>): Reader {
    match previous
    case None => Open([InObject("")], FirstKey, "", field, false, rows)
    case Some(contact) => InGroup(contact, AfterValue, field, rows)
  }

  lemma LeadRead(previous: Option<string>, contact: string, field: string, rows: set<Row>) returns (at: Position)
    ensures at == FirstItem || at == Value
    ensures Run(Before(previous, field, rows), Lead(previous, contact)) == Some(InGroup(contact, at, field, rows))
  {
    var r := Before(previous, field, rows);
    match previous {
      case None =>
        at := FirstItem;
        HeadingRead(FirstKey, "", "", contact, field, false, rows);
        assert [] + Heading(contact) == Heading(contact);
      case Some(was) =>
        if was == contact {
          at := Value;
          RunOne(r, Comma);
        } else {
          at := FirstItem;
          CloseRead(was, field, rows);
          var closed := Open([InObject(was)], AfterValue, was, field, true, rows);
          RunOne(closed, Comma);
          RunConcat(r, [RBracket, RBrace], [Comma]);
          assert [RBracket, RBrace] + [Comma] == [RBracket, RBrace, Comma];
          HeadingRead(NextKey, was, was, contact, field, true, rows);
          RunConcat(r, [RBracket, RBrace, Comma], Heading(contact));
        }
    }
  }

  function RowSet(rows: seq<Row>): set<Row> {
    set row | row in rows
  }

  lemma {:induction false} RowsRead(previous: Option<string>, field: string, done: set<Row>, rows: seq<Row>)
    returns (end: Reader)
    requires forall row | row in rows :: Canonical(row.record)
    ensures Run(Before(previous, field, done), PrintedFrom(previous, rows)) == Some(end)
    ensures |end.parser.stack| == 2 && end.parser.stack[1].InObject?
    ensures end.parser.stack == Section + [end.parser.stack[1]]
    ensures end.parser.at == FirstKey || end.parser.at == AfterValue
    ensures end.collector.rows == done + RowSet(rows) && end.collector.record == None
    ensures end.collector.found <==> previous.Some? || rows != []
    decreases rows
  {
    if rows == [] {
      match previous {
        case None => end := Before(previous, field, done);
        case Some(contact) =>
          CloseRead(contact, field, done);
          end := Open([InObject(contact)], AfterValue, contact, field, true, done);
      }
    } else {
      var row := rows[0];
      var r := Before(previous, field, done);
      var at := LeadRead(previous, row.contact, field, done);
      RecordRead(row.contact, at, field, done, row.record);
      RunConcat(r, Lead(previous, row.contact), RecordTokens(row.record));
      end := RowsRead(Some(row.contact), LastKey(field, row.record), done + {row}, rows[1..]);
      RunConcat(r, Lead(previous, row.contact) + RecordTokens(row.record), PrintedFrom(Some(row.contact), rows[1..]));
      assert rows == [row] + rows[1..];
    }
  }

  /** The streaming reader takes the grouped printer's output apart into exactly its rows. */
  lemma PrintedIsRead(rows: seq<Row>) returns (end: Collector)
    requires forall row | row in rows :: Canonical(row.record)
    ensures Run(AtStart, Printed(rows)) == Some(Reader(Parser(Section, AfterValue), end))
    ensures end.rows == RowSet(rows)
    ensures end.found <==> rows != []
  {
    RunOne(AtStart, LBrace);
    SectionPrefix("", "");
    var entry := Before(None, "", {});
    assert Section + [InObject("")] == entry.parser.stack;
    var inner := RowsRead(None, "", {}, rows);
    RunConcat(AtStart, [LBrace], PrintedFrom(None, rows));
    SectionPrefix(inner.parser.stack[1].key, "");
    RunOne(inner, RBrace);
    RunConcat(AtStart, [LBrace] + PrintedFrom(None, rows), [RBrace]);
    end := Step(inner, RBrace).value.collector;
  }

  // ----- No contact is printed twice -----

  ghost predicate ByContact(rows: seq<Row>) {
    forall i, j | 0 <= i < j < |rows| :: AtMost(rows[i].contact, rows[j].contact)
  }

  /** The contacts that get a heading of their own, that is the keys of the printed object. */
  function Headed(previous: Option<string>, rows: seq<Row>): seq<string>
    decreases rows
  {
    if rows == [] then []
    else (if previous == Some(rows[0].contact) then [] else [rows[0].contact])
         + Headed(Some(rows[0].contact), rows[1..])
  }

  /** Rows ordered by contact are grouped: the keys of the printed object strictly increase. */
  lemma {:induction false} ContactsHeadedOnce(previous: Option<string>, rows: seq<Row>)
    requires ByContact(rows)
    requires previous.Some? ==> forall row | row in rows :: AtMost(previous.value, row.contact)
    ensures forall i, j | 0 <= i < j < |Headed(previous, rows)| ::
      Less(Headed(previous, rows)[i], Headed(previous, rows)[j])
    ensures previous.Some? ==> forall c | c in Headed(previous, rows) :: Less(previous.value, c)
    decreases rows
  {
    if rows != [] {
      var c := rows[0].contact;
      ContactsHeadedOnce(Some(c), rows[1..]);
      if previous.Some? && previous.value != c {
        forall d | d in Headed(Some(c), rows[1..]) ensures Less(previous.value, d) {
          LessTransitive(previous.value, c, d);
        }
      }
    }
  }

  // ----- The catalog file and the rebuild -----

  /** What the mirror holds: event rows, evidence rows and the state rows. */
  datatype Content = Content(events: Rows, conflicts: seq<Event>, aliases: map<string, string>,
                             imports: seq<string>, evidence: set<Row>)

  const Nothing := Content(map[], [], map[], [], {})

  datatype File = File(version: nat, events: Rows, conflicts: seq<Event>, aliases: map<string, string>,
                       imports: seq<string>, contacts: seq<Token>)

  function Written(content: Content, rows: seq<Row>): File {
    File(2, content.events, content.conflicts, content.aliases, content.imports, Printed(rows))
  }

  /** The evidence `people` of one event amount to. */
  ghost function PeopleRows(event: Event, people: seq<Person>, source: string): set<Row> {
    set p | p in people && p.contact.Some? :: Row(p.contact.value, EvidenceOf(event, p, source))
  }

  /** The evidence a catalog without contact records is given. */
  ghost function Derived(events: Rows): set<Row> {
    set id, row | id in events && row in PeopleRows(events[id], events[id].people, "") :: row
  }

  lemma DerivedAdds(events: Rows, id: string, event: Event)
    requires id !in events
    ensures Derived(events[id := event]) == Derived(events) + PeopleRows(event, event.people, "")
  {
    var more := events[id := event];
    forall row | row in Derived(events) ensures row in Derived(more) {
      var old_id :| old_id in events && row in PeopleRows(events[old_id], events[old_id].people, "");
      assert old_id in more && more[old_id] == events[old_id];
    }
    forall row | row in PeopleRows(event, event.people, "") ensures row in Derived(more) {
      assert id in more && row in PeopleRows(more[id], more[id].people, "");
    }
  }

  ghost function Rebuilt(file: Option<File>): Option<Content> {
    match file
    case None => Some(Nothing)
    case Some(f) =>
      if f.version != 1 && f.version != 2 then None
      else
        match Run(AtStart, f.contacts)
        case None => None
        case Some(r) =>
          if !Complete(r) then None
          else Some(Content(f.events, f.conflicts, f.aliases, f.imports,
                            if r.collector.found then r.collector.rows else Derived(f.events)))
  }

  ghost predicate Storable(content: Content) {
    forall row | row in content.evidence :: Canonical(row.record)
  }

  /**
   Writing the catalog and rebuilding from it gives the mirror back if and only if a mirror
   without evidence has no event that names an addressable person.
   */
  lemma RebuildRestoresExactly(content: Content, rows: seq<Row>)
    requires Storable(content) && RowSet(rows) == content.evidence
    ensures Rebuilt(Some(Written(content, rows))) == Some(content) <==>
            (content.evidence != {} || Derived(content.events) == {})
  {
    forall row | row in rows ensures Canonical(row.record) {
      assert row in RowSet(rows);
    }
    var end := PrintedIsRead(rows);
    assert content.evidence == {} <==> rows == [] by {
      if rows != [] {
        assert rows[0] in RowSet(rows);
      }
    }
    assert Rebuilt(Some(Written(content, rows))) ==
           Some(content.(evidence := if end.found then end.rows else Derived(content.events)));
  }

  /** One open transaction on the mirror. */
  class Mirror {
    var events: Rows
    var conflicts: seq<Event>
    var aliases: map<string, string>
    var imports: seq<string>
    var evidence: set<Row>

    ghost function View(): Content
      reads this
    {
      Content(events, conflicts, aliases, imports, evidence)
    }

    constructor (committed: Content)
      ensures View() == committed
    {
      events, conflicts, aliases := committed.events, committed.conflicts, committed.aliases;
      imports, evidence := committed.imports, committed.evidence;
    }

    method PutEvent(identity: string, event: Event)
      modifies this
      ensures View() == old(View()).(events := old(events)[identity := event])
    {
      events := events[identity := event];
    }

    method AddEvidence(contact: string, record: Record)
      modifies this
      ensures View() == old(View()).(evidence := old(evidence) + {Row(contact, record)})
    {
      if Row(contact, record) !in evidence {
        evidence := evidence + {Row(contact, record)};
      }
    }

    method AddPeople(event: Event, source: string)
      modifies this
      ensures View() == old(View()).(evidence := old(evidence) + PeopleRows(event, event.people, source))
    {
      for i := 0 to |event.people|
        invariant View() == old(View()).(evidence := old(evidence) + PeopleRows(event, event.people[..i], source))
      {
        var person := event.people[i];
        assert event.people[..i + 1] == event.people[..i] + [person];
        assert PeopleRows(event, event.people[..i + 1], source) ==
               PeopleRows(event, event.people[..i], source) + PeopleRows(event, [person], source);
        if person.contact.Some? {
          assert PeopleRows(event, [person], source) == {Row(person.contact.value, EvidenceOf(event, person, source))};
          AddEvidence(person.contact.value, EvidenceOf(event, person, source));
        } else {
          assert PeopleRows(event, [person], source) == {};
        }
      }
      assert event.people[..|event.people|] == event.people;
    }

    /** A failed rebuild leaves a transaction that its caller rolls back. */
    method Rebuild(file: Option<File>) returns (readable: bool)
      modifies this
      ensures readable <==> Rebuilt(file).Some?
      ensures readable ==> View() == Rebuilt(file).value
    {
      events, evidence, conflicts, aliases, imports := map[], {}, [], map[], [];
      if file.Some? {
        var f := file.value;
        if f.version != 1 && f.version != 2 {
          return false;
        }
        events, imports, conflicts, aliases := f.events, f.imports, f.conflicts, f.aliases;
        var collected := ReadContacts(f.contacts);
        if collected == None {
          return false;
        }
        if collected.value.found {
          evidence := collected.value.rows;
        } else {
          DeriveEvidence();
        }
      }
      return true;
    }

    method DeriveEvidence()
      requires evidence == {}
      modifies this
      ensures View() == old(View()).(evidence := Derived(events))
    {
      var left := events.Keys;
      while left != {}
        invariant left <= events.Keys
        invariant View() == old(View()).(evidence := Derived(events - left))
        decreases left
      {
        var id :| id in left;
        assert events - (left - {id}) == (events - left)[id := events[id]];
        DerivedAdds(events - left, id, events[id]);
        AddPeople(events[id], "");
        left := left - {id};
      }
      assert events - {} == events;
    }

    /** The evidence query, ordered by contact. */
    method EvidenceRows() returns (rows: seq<Row>)
      ensures RowSet(rows) == evidence && ByContact(rows)
    {
      rows := [];
      var left := evidence;
      while left != {}
        invariant left <= evidence
        invariant RowSet(rows) == evidence - left
        invariant ByContact(rows)
        decreases left
      {
        var row :| row in left;
        PlacedRows(rows, row);
        rows := Placed(rows, row);
        left := left - {row};
      }
    }

    /** The snapshot whose promotion replaces the catalog file. */
    method WriteCatalog(listed: seq<string>) returns (file: File, ghost rows: seq<Row>)
      modifies this
      ensures View() == old(View()).(imports := listed)
      ensures RowSet(rows) == evidence && ByContact(rows)
      ensures file == Written(View(), rows)
    {
      var ordered := EvidenceRows();
      var contacts := WriteContacts(ordered);
      file := File(2, events, conflicts, aliases, listed, contacts);
      imports := listed;
      rows := ordered;
    }
  }

  function Placed(rows: seq<Row>, row: Row): seq<Row> {
    if rows == [] || !Less(rows[0].contact, row.contact) then [row] + rows
    else [rows[0]] + Placed(rows[1..], row)
  }

  lemma {:induction false} PlacedRows(rows: seq<Row>, row: Row)
    requires ByContact(rows)
    ensures RowSet(Placed(rows, row)) == RowSet(rows) + {row}
    ensures ByContact(Placed(rows, row))
  {
    hide Less, RowSet;
    if rows == [] {
      RowSetCons(row, []);
    } else if !Less(rows[0].contact, row.contact) {
      LessTotal(rows[0].contact, row.contact);
      RowSetCons(row, rows);
      forall j | 0 <= j < |rows| ensures AtMost(row.contact, rows[j].contact) {
        if j > 0 && row.contact != rows[0].contact && rows[0].contact != rows[j].contact {
          LessTransitive(row.contact, rows[0].contact, rows[j].contact);
        }
      }
    } else {
      PlacedRows(rows[1..], row);
      var tail := Placed(rows[1..], row);
      assert rows == [rows[0]] + rows[1..];
      RowSetCons(rows[0], rows[1..]);
      RowSetCons(rows[0], tail);
      PlacedHead(rows, row, tail);
    }
  }

  lemma RowSetCons(row: Row, rows: seq<Row>)
    ensures RowSet([row] + rows) == {row} + RowSet(rows)
    ensures RowSet([]) == {}
  {
  }

  lemma PlacedHead(rows: seq<Row>, row: Row, tail: seq<Row>)
    requires rows != [] && ByContact(rows) && ByContact(tail) && Less(rows[0].contact, row.contact)
    requires RowSet(tail) == RowSet(rows[1..]) + {row}
    ensures ByContact([rows[0]] + tail)
  {
    hide Less;
    forall j | 0 <= j < |tail| ensures AtMost(rows[0].contact, tail[j].contact) {
      assert tail[j] in RowSet(tail);
      assert tail[j] in RowSet(rows[1..]) + {row};
    }
  }
}
