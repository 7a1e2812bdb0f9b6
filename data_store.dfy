/**
  The watermark store of src/data_store.py: a map from normalised feed name
  to the feed's last-processed record (`STORE`), the file format
  `NAME|lastProcessedId|timestamp` it is persisted in, and the line parser
  that reads it back. The file itself is modelled as its sequence of lines.
 */
module DataStore {
  import opened Wrappers
  import opened PyStr
  import opened Util

  /** `STORE`: what was last processed for a feed. */
  datatype StoreRecord = StoreRecord(
    serviceName: Option<string>,
    lastProcessedId: Option<string>,
    lastProcessedUpdateTimestamp: Option<int>)

  /** The store's dictionary: a `None` value is the null record a corrupt line leaves. */
  type Stores = map<Option<string>, Option<StoreRecord>>

  /** Every key is a value `Encode` produced (and so `Encode` maps it to itself). */
  predicate EncodedKeys(m: Stores) {
    forall k :: k in m ==> Encode(k) == k
  }

  // ---------------------------------------------------------------------------
  // The line format

  /** `'%s' % service_name` for a key: a `None` key prints as `None`. */
  function KeyText(k: Option<string>): string {
    if k.None? then "None" else k.value
  }

  /** The id field: a missing (falsy) id is written as the empty string. */
  function IdText(rec: StoreRecord): string {
    if TruthyStr(rec.lastProcessedId) then rec.lastProcessedId.value else ""
  }

  /** The time field: a missing or zero (falsy) timestamp is written as the empty string. */
  function TimeText(rec: StoreRecord): string {
    if TruthyInt(rec.lastProcessedUpdateTimestamp) then FormatInt(rec.lastProcessedUpdateTimestamp.value) else ""
  }

  /** The text of one line of the store file. */
  function Line(name: string, id: string, time: string): string {
    name + ['|'] + id + ['|'] + time + ['\n']
  }

  /** The line `write_store` writes for one entry, as the source writes it:
      a null record has no attributes, so writing it raises. */
  function SerializeLineAsWritten(k: Option<string>, rec: Option<StoreRecord>): (r: Result<string>)
    ensures r.Err? <==> rec.None?
  {
    if rec.None? then Err(AttributeError("lastProcessedId"))
    else Ok(Line(KeyText(k), IdText(rec.value), TimeText(rec.value)))
  }

  /** The line written for one entry, with a null record written as a record
      whose fields are both missing (`NAME||`), which reads back as null. */
  function SerializeLine(k: Option<string>, rec: Option<StoreRecord>): (line: string)
    ensures rec.Some? ==> SerializeLineAsWritten(k, rec) == Ok(line)
  {
    var r := rec.GetOr(StoreRecord(None, None, None));
    Line(KeyText(k), IdText(r), TimeText(r))
  }

  /** The lines for the keys of `m` in the order `order` visits them. */
  function Lines(m: Stores, order: seq<Option<string>>): (r: seq<string>)
    requires forall i :: 0 <= i < |order| ==> order[i] in m
    ensures |r| == |order|
    ensures forall i :: 0 <= i < |order| ==> r[i] == SerializeLine(order[i], m[order[i]])
  {
    seq(|order|, i requires 0 <= i < |order| => SerializeLine(order[i], m[order[i]]))
  }

  /** The fields of a line: `line.strip().split("|")`. */
  function Fields(line: string): (data: seq<string>)
    ensures |data| >= 1
  {
    Split(Strip(line), '|')
  }

  /** The record `_read_store` builds from the id and time fields: kept only
      when the id is present and the timestamp is present and non-zero,
      otherwise null; a timestamp that is not a number is a ValueError. */
  function RecordFrom(section: Option<string>, idField: string, timeField: string): (r: Result<Option<StoreRecord>>)
    ensures r.Err? <==> timeField != [] && ParseInt(timeField, true).None?
    ensures r.Err? ==> r.error == ValueError(timeField)
    ensures r.Ok? ==> (r.value.Some? <==> idField != [] && timeField != [] && TruthyInt(ParseInt(timeField, true)))
    ensures r.Ok? && r.value.Some? ==> r.value.value == StoreRecord(section, Some(idField), ParseInt(timeField, true))
    ensures r.Ok? && r.value.Some? ==>
      && r.value.value.serviceName == section
      && TruthyStr(r.value.value.lastProcessedId)
      && TruthyInt(r.value.value.lastProcessedUpdateTimestamp)
  {
    if timeField != [] && ParseInt(timeField, true).None? then Err(ValueError(timeField))
    else
      var time := if timeField != [] then ParseInt(timeField, true) else None;
      var lastId := if idField != [] then Some(idField) else None;
      if TruthyInt(time) && lastId.Some? then Ok(Some(StoreRecord(section, lastId, time)))
      else Ok(None)
  }

  /** One line of `_read_store`: the name field is encoded and mapped to the
      record the other two fields give; fewer than three fields is an
      IndexError. */
  function ParseLine(line: string): (r: Result<(Option<string>, Option<StoreRecord>)>)
    ensures r.Ok? ==> Encode(r.value.0) == r.value.0
    ensures r.Ok? && r.value.1.Some? ==> r.value.1.value.serviceName == r.value.0
  {
    var data := Fields(line);
    var section := Encode(Some(data[0]));
    EncodeIdempotent(Some(data[0]));
    if |data| < 3 then Err(IndexError)
    else
      match RecordFrom(section, data[1], data[2])
      case Err(e) => Err(e)
      case Ok(rec) => Ok((section, rec))
  }

  /** `_read_store` from the dictionary `m` on: every parsed line overwrites
      its key; the first line that raises stops the read, leaving what was
      read so far. */
  function ReadLines(m: Stores, lines: seq<string>): (r: (Stores, Option<Error>))
    ensures EncodedKeys(m) ==> EncodedKeys(r.0)
    decreases |lines|
  {
    if lines == [] then (m, None)
    else
      match ParseLine(lines[0])
      case Err(e) => (m, Some(e))
      case Ok(entry) => ReadLines(m[entry.0 := entry.1], lines[1..])
  }

  /** What reading back the line written for `rec` under the name `k` gives:
      the record renamed after the key when its id and timestamp are both
      present, the null record otherwise. */
  function ReadBack(k: Option<string>, rec: Option<StoreRecord>): Option<StoreRecord> {
    if rec.Some? && TruthyStr(rec.value.lastProcessedId) && TruthyInt(rec.value.lastProcessedUpdateTimestamp)
    then Some(StoreRecord(k, rec.value.lastProcessedId, rec.value.lastProcessedUpdateTimestamp))
    else None
  }

  /** A key and record that survive the line format: the name is normalised
      and neither the name nor the id holds the field separator or a line
      break (the file is read back line by line). */
  predicate Writable(k: Option<string>, rec: Option<StoreRecord>) {
    && k.Some? && Normalised(k.value) && '|' !in k.value && '\n' !in k.value
    && (rec.Some? && rec.value.lastProcessedId.Some? ==>
          '|' !in rec.value.lastProcessedId.value && '\n' !in rec.value.lastProcessedId.value)
  }

  /** A written line splits back into the three fields it was made of. */
  lemma LineFields(name: string, id: string, time: string)
    requires name != [] && !IsSpace(name[0])
    requires time == [] || !IsSpace(time[|time| - 1])
    requires '|' !in name && '|' !in id && '|' !in time
    ensures Fields(Line(name, id, time)) == [name, id, time]
  {
    LineStrip(name, id, time);
    SplitThree(name, id, time);
  }

  lemma SplitThree(name: string, id: string, time: string)
    requires '|' !in name && '|' !in id && '|' !in time
    ensures Split(name + ['|'] + id + ['|'] + time, '|') == [name, id, time]
  {
    var rest := id + ['|'] + time;
    assert name + ['|'] + id + ['|'] + time == name + ['|'] + rest;
    SplitField(name, '|', rest);
    SplitField(id, '|', time);
    SplitNoSeparator(time, '|');
  }

  lemma LineStrip(name: string, id: string, time: string)
    requires name != [] && !IsSpace(name[0])
    requires time == [] || !IsSpace(time[|time| - 1])
    ensures Strip(Line(name, id, time)) == name + ['|'] + id + ['|'] + time
  {
    var body := name + ['|'] + id + ['|'] + time;
    assert Line(name, id, time) == [] + body + ['\n'];
    assert body[0] == name[0];
    assert body[|body| - 1] == if time == [] then '|' else time[|time| - 1];
    StripPadded([], body, ['\n']);
  }

  /** Round trip of one line: parsing what was written gives back the key and
      the record, or the null record when either field was missing. */
  lemma LineRoundTrip(k: Option<string>, rec: Option<StoreRecord>)
    requires Writable(k, rec)
    ensures ParseLine(SerializeLine(k, rec)) == Ok((k, ReadBack(k, rec)))
  {
    var r := rec.GetOr(StoreRecord(None, None, None));
    var name, id, time := k.value, IdText(r), TimeText(r);
    assert !IsSpace(name[0]);
    LineFields(name, id, time);
    NormalisedIsFixedPoint(name);
    RecordFromWritten(name, rec);
    ParseLineOfFields(SerializeLine(k, rec), name, id, time);
  }

  lemma ParseLineOfFields(line: string, a: string, b: string, c: string)
    requires Fields(line) == [a, b, c]
    ensures RecordFrom(Encode(Some(a)), b, c).Err? ==> ParseLine(line) == Err(RecordFrom(Encode(Some(a)), b, c).error)
    ensures RecordFrom(Encode(Some(a)), b, c).Ok? ==> ParseLine(line) == Ok((Encode(Some(a)), RecordFrom(Encode(Some(a)), b, c).value))
  {
  }

  lemma RecordFromWritten(name: string, rec: Option<StoreRecord>)
    ensures
      var r := rec.GetOr(StoreRecord(None, None, None));
      RecordFrom(Some(name), IdText(r), TimeText(r)) == Ok(ReadBack(Some(name), rec))
  {
    var r := rec.GetOr(StoreRecord(None, None, None));
    if TruthyInt(r.lastProcessedUpdateTimestamp) {
      ParseFormatRoundTrip(r.lastProcessedUpdateTimestamp.value, true);
    }
  }

  /** A written null record reads back as a null record under the same key,
      and the source's own writer cannot write that record back out. */
  lemma NullRecordCannotBeRewritten(k: Option<string>)
    requires Writable(k, None)
    ensures ParseLine(SerializeLine(k, None)) == Ok((k, None))
    ensures SerializeLineAsWritten(k, None).Err?
  {
    LineRoundTrip(k, None);
  }

  /** `acc` with each key of `order`, in turn, mapped to its read-back record. */
  function ReadBackAll(acc: Stores, m: Stores, order: seq<Option<string>>): Stores
    requires forall i :: 0 <= i < |order| ==> order[i] in m
    decreases |order|
  {
    if order == [] then acc else ReadBackAll(acc[order[0] := ReadBack(order[0], m[order[0]])], m, order[1..])
  }

  /** Reading the lines written for some keys of `m`, starting from `acc`,
      raises nothing and stores each key's read-back record in turn. */
  lemma {:induction false} ReadWrittenLines(acc: Stores, m: Stores, order: seq<Option<string>>)
    requires forall i :: 0 <= i < |order| ==> order[i] in m && Writable(order[i], m[order[i]])
    ensures ReadLines(acc, Lines(m, order)) == (ReadBackAll(acc, m, order), None)
    decreases |order|
  {
    if order != [] {
      ReadFirstLine(acc, m, order);
      ReadWrittenLines(acc[order[0] := ReadBack(order[0], m[order[0]])], m, order[1..]);
    }
  }

  /** Those records are exactly the keys of `acc` and of `order`, each key of
      `order` with its read-back record and the others as they were. */
  lemma {:induction false} ReadBackAllContents(acc: Stores, m: Stores, order: seq<Option<string>>)
    requires forall i :: 0 <= i < |order| ==> order[i] in m
    ensures forall k :: k in ReadBackAll(acc, m, order) <==> k in acc || k in order
    ensures forall k :: k in order ==> ReadBackAll(acc, m, order)[k] == ReadBack(k, m[k])
    ensures forall k :: k in acc && k !in order ==> ReadBackAll(acc, m, order)[k] == acc[k]
    decreases |order|
  {
    if order != [] {
      var k := order[0];
      var rest := order[1..];
      ReadBackAllContents(acc[k := ReadBack(k, m[k])], m, rest);
      assert forall x :: x in order <==> x == k || x in rest by {
        assert order == [k] + rest;
      }
    }
  }

  /** The first written line is read back and the rest are read after it. */
  lemma ReadFirstLine(acc: Stores, m: Stores, order: seq<Option<string>>)
    requires order != []
    requires forall i :: 0 <= i < |order| ==> order[i] in m
    requires Writable(order[0], m[order[0]])
    ensures ReadLines(acc, Lines(m, order))
      == ReadLines(acc[order[0] := ReadBack(order[0], m[order[0]])], Lines(m, order[1..]))
  {
    var k := order[0];
    var lines := Lines(m, order);
    LineRoundTrip(k, m[k]);
    LinesTail(m, order);
    ReadLinesStep(acc, lines, k, ReadBack(k, m[k]));
  }

  lemma ReadLinesStep(acc: Stores, lines: seq<string>, k: Option<string>, rec: Option<StoreRecord>)
    requires lines != [] && ParseLine(lines[0]) == Ok((k, rec))
    ensures ReadLines(acc, lines) == ReadLines(acc[k := rec], lines[1..])
  {
  }

  lemma LinesTail(m: Stores, order: seq<Option<string>>)
    requires order != []
    requires forall i :: 0 <= i < |order| ==> order[i] in m
    ensures Lines(m, order)[1..] == Lines(m, order[1..])
  {
    var l, r := Lines(m, order)[1..], Lines(m, order[1..]);
    assert |l| == |r|;
    forall i | 0 <= i < |l|
      ensures l[i] == r[i]
    {
      assert l[i] == Lines(m, order)[i + 1];
    }
  }

  /** Round trip of the whole store: reading back everything `write_store`
      wrote gives every key again, with its record when both fields were
      present and the null record otherwise. */
  lemma StoreRoundTrip(m: Stores, order: seq<Option<string>>)
    requires forall k :: k in m ==> Writable(k, m[k])
    requires forall k :: k in m <==> k in order
    ensures ReadLines(map[], Lines(m, order)).1 == None
    ensures ReadLines(map[], Lines(m, order)).0.Keys == m.Keys
    ensures forall k :: k in m ==> ReadLines(map[], Lines(m, order)).0[k] == ReadBack(k, m[k])
  {
    OrderCoversStore(m, order);
    ReadWrittenLines(map[], m, order);
    ReadBackAllContents(map[], m, order);
    SameKeys(ReadBackAll(map[], m, order), m);
  }

  lemma SameKeys(a: Stores, b: Stores)
    requires forall k :: k in a <==> k in b
    ensures a.Keys == b.Keys
  {
  }

  lemma OrderCoversStore(m: Stores, order: seq<Option<string>>)
    requires forall k :: k in m ==> Writable(k, m[k])
    requires forall k :: k in m <==> k in order
    ensures forall i :: 0 <= i < |order| ==> order[i] in m && Writable(order[i], m[order[i]])
  {
    forall i | 0 <= i < |order|
      ensures order[i] in m && Writable(order[i], m[order[i]])
    {
      assert order[i] in order;
    }
  }

  /** The cases of test/test_data_store.py's `test_writing`: a record with
      neither field and one with an id but no timestamp are written with
      empty fields, and the second reads back as the null record. */
  lemma WritingExample()
    ensures SerializeLine(Some("T1"), Some(StoreRecord(None, None, None))) == "T1||\n"
    ensures SerializeLine(Some("T3"), Some(StoreRecord(Some("T3"), Some("id3"), None))) == "T3|id3|\n"
    ensures ParseLine("T3|id3|\n") == Ok((Some("T3"), None))
  {
    var k, rec := Some("T3"), Some(StoreRecord(Some("T3"), Some("id3"), None));
    LineT1();
    LineT3();
    assert Normalised("T3") by { assert !IsSpace("T3"[0]) && !IsSpace("T3"[1]); }
    LineRoundTrip(k, rec);
  }

  lemma LineT1()
    ensures Line("T1", "", "") == "T1||\n"
  {
    assert Line("T1", "", "") == "T1" + "|" + "|" + "\n";
  }

  lemma LineT3()
    ensures Line("T3", "id3", "") == "T3|id3|\n"
  {
    assert Line("T3", "id3", "") == "T3" + "|" + "id3" + "|" + "\n";
  }

  // ---------------------------------------------------------------------------
  // The store object

  /** The record under the encoded name, or the null record when there is none. */
  function LookupRecord(m: Stores, section: Option<string>): Option<StoreRecord> {
    var k := Encode(section);
    if k in m then m[k] else None
  }

  /** `DataStore` with the line reading and writing of `FileBasedDataStore`. */
  class Store {
    const dryRun: bool
    var stores: Stores

    ghost predicate Valid()
      reads this
    {
      EncodedKeys(stores)
    }

    /** `DataStore.__init__`: an empty store. */
    constructor (dryRun: bool)
      ensures Valid()
      ensures this.dryRun == dryRun && stores == map[]
    {
      this.dryRun := dryRun;
      stores := map[];
    }

    /** `__getitem__`: the record under the encoded name; a name with no entry
        raises KeyError. */
    function Get(section: Option<string>): (r: Result<Option<StoreRecord>>)
      reads this
      ensures r.Ok? <==> Encode(section) in stores
      ensures r.Ok? ==> r.value == stores[Encode(section)]
      ensures r.Err? ==> r.error == KeyError(Encode(section))
    {
      var k := Encode(section);
      if k in stores then Ok(stores[k]) else Err(KeyError(k))
    }

    /** The lookup the run loop needs: a feed with no entry has never been
        processed, which reads as the null record. */
    function Lookup(section: Option<string>): (r: Option<StoreRecord>)
      reads this
      ensures Get(section).Ok? ==> r == Get(section).value
      ensures Get(section).Err? ==> r == None
    {
      LookupRecord(stores, section)
    }

    /** `__len__`: the number of stored names; it is zero exactly when
        every lookup raises. */
    function Len(): (n: nat)
      requires Valid()
      reads this
      ensures n == 0 <==> forall section :: Get(section).Err?
    {
      if stores != map[] then
        var k :| k in stores;
        assert Get(k).Ok?;
        |stores|
      else |stores|
    }

    /** `__setitem__`: a falsy name or a missing record raises and changes
        nothing; otherwise the record is stored under the encoded name, so it
        is found again under any spelling that encodes the same way, and the
        size counts distinct encoded names. */
    method Set(section: Option<string>, store: Option<StoreRecord>) returns (err: Option<Error>)
      requires Valid()
      modifies this
      ensures Valid()
      ensures !TruthyStr(section) ==> err == Some(SystemError("Section name is empty"))
      ensures TruthyStr(section) && store.None? ==> err == Some(SystemError("Store is empty for " + section.value))
      ensures err.Some? ==> stores == old(stores)
      ensures err.None? <==> TruthyStr(section) && store.Some?
      ensures err.None? ==> stores == old(stores)[Encode(section) := store]
      ensures err.None? ==> forall other :: Encode(other) == Encode(section) ==> Get(other) == Ok(store)
      ensures err.None? ==> Len() == if Encode(section) in old(stores) then |old(stores)| else |old(stores)| + 1
    {
      if !TruthyStr(section) {
        return Some(SystemError("Section name is empty"));
      }
      if store.None? {
        return Some(SystemError("Store is empty for " + section.value));
      }
      EncodeIdempotent(section);
      stores := stores[Encode(section) := store];
      err := None;
    }

    /** `_read_store`: with no file the store is empty; otherwise it is
        rebuilt line by line, and a line that raises stops the read. */
    method ReadStore(lines: Option<seq<string>>) returns (err: Option<Error>)
      modifies this
      ensures Valid()
      ensures lines.None? ==> stores == map[] && err == None
      ensures lines.Some? ==> (stores, err) == ReadLines(map[], lines.value)
    {
      stores := map[];
      if lines.None? {
        return None;
      }
      var ls := lines.value;
      var i := 0;
      while i < |ls|
        invariant 0 <= i <= |ls|
        invariant EncodedKeys(stores)
        invariant ReadLines(stores, ls[i..]) == ReadLines(map[], ls)
      {
        assert ls[i..][1..] == ls[i + 1..];
        match ParseLine(ls[i])
        case Err(e) =>
          return Some(e);
        case Ok(entry) =>
          stores := stores[entry.0 := entry.1];
        i := i + 1;
      }
      err := None;
    }

    /** `write_store`: in a dry run nothing is written and the count is the
        length of the list passed in; otherwise one line per key is written
        (in the dictionary's order, `order`) and the count is the store's
        size. */
    method WriteStore(resultText: seq<string>) returns (count: nat, written: Option<seq<string>>, ghost order: seq<Option<string>>)
      ensures dryRun ==> written == None && count == |resultText|
      ensures !dryRun ==> forall k :: k in stores <==> k in order
      ensures !dryRun ==> forall i, j :: 0 <= i < j < |order| ==> order[i] != order[j]
      ensures !dryRun ==> written == Some(Lines(stores, order)) && count == |stores| == |order|
    {
      order := [];
      if dryRun {
        return |resultText|, None, order;
      }
      var remaining := stores.Keys;
      var lines := [];
      while remaining != {}
        invariant remaining <= stores.Keys
        invariant forall k :: k in order <==> k in stores && k !in remaining
        invariant forall i, j :: 0 <= i < j < |order| ==> order[i] != order[j]
        invariant |order| + |remaining| == |stores|
        invariant lines == Lines(stores, order)
        decreases |remaining|
      {
        var k :| k in remaining;
        lines := lines + [SerializeLine(k, stores[k])];
        order := order + [k];
        remaining := remaining - {k};
      }
      count, written := |lines|, Some(lines);
    }
  }

  /** On a fresh store (no file yet) every lookup through `__getitem__`
      raises, which is what the run loop does for each configured feed. */
  lemma FreshStoreLookupRaises(s: Store, section: Option<string>)
    requires s.stores == map[]
    ensures s.Get(section) == Err(KeyError(Encode(section)))
    ensures s.Lookup(section) == None
  {
  }
}
