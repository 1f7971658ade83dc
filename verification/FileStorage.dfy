/** FileStorage: an append-only file of serialized bundles with an index table, against a plain list of records. */
module FileStorage {
  import opened Bits
  import opened Common
  import opened DataIndex
  import opened JavaText

  /** A request and its response, known by what they are only; both may be missing. */
  datatype Bundle = Bundle(request: Option<nat>, response: Option<nat>)

  /** `new RequestResponseBundle()` */
  const EMPTY := Bundle(None, None)

  /** Java serialization: what `writeObject` appends, and what `readObject` reads from the front of a stream. */
  datatype Serializer = Serializer(write: Bundle -> seq<Octet>, read: seq<Octet> -> Option<Bundle>)

  /** Reading stops where writing did, whatever follows. */
  ghost predicate SelfDelimiting(s: Serializer) {
    forall b, rest :: s.read(s.write(b) + rest) == Some(b)
  }

  // ---- the list of records ------------------------------------------------------------------------------------------

  datatype Record = Record(signature: JString, bundle: Bundle)

  datatype Op =
    | Put(signature: JString, bundle: Bundle)
    | SignerChanged(sign: Option<nat> -> JString)
    | Delete

  function Resigned(records: seq<Record>, sign: Option<nat> -> JString): (r: seq<Record>)
    ensures |r| == |records|
    ensures forall i :: 0 <= i < |r| ==> r[i] == Record(sign(records[i].bundle.request), records[i].bundle)
  {
    seq(|records|, i requires 0 <= i < |records| => Record(sign(records[i].bundle.request), records[i].bundle))
  }

  function Apply(records: seq<Record>, op: Op): seq<Record> {
    match op
    case Put(signature, bundle) => records + [Record(signature, bundle)]
    case SignerChanged(sign) => Resigned(records, sign)
    case Delete => []
  }

  function Run(ops: seq<Op>): seq<Record> {
    if ops == [] then [] else Apply(Run(ops[..|ops| - 1]), ops[|ops| - 1])
  }

  /** The bundle put last among those whose present signature is the key's; the empty bundle if there is none. */
  function Get(same: Collation, records: seq<Record>, key: JString): Bundle {
    if records == [] then EMPTY
    else if same(records[|records| - 1].signature, key) then records[|records| - 1].bundle
    else Get(same, records[..|records| - 1], key)
  }

  // ---- the file and the table ---------------------------------------------------------------------------------------

  /** The row is of this record: it has its signature, and its offset is where the record's own bytes begin. */
  predicate Indexes(s: Serializer, file: seq<Octet>, row: Row, record: Record) {
    && row.signature == record.signature
    && var bytes := s.write(record.bundle);
       row.offset + |bytes| <= |file| && file[row.offset..row.offset + |bytes|] == bytes
  }

  predicate AllIndexed(s: Serializer, file: seq<Octet>, rows: seq<Row>, records: seq<Record>) {
    |rows| == |records| && forall i :: 0 <= i < |rows| ==> Indexes(s, file, rows[i], records[i])
  }

  class Storage {
    const serializer: Serializer
    const db: Database
    const link: int
    /** The data file; one that does not exist has no bytes. */
    var file: seq<Octet>
    /** The records, as the callers see them. */
    ghost var records: seq<Record>

    ghost predicate Valid()
      reads this, db
    {
      && SelfDelimiting(serializer) && db.Valid()
      && AllIndexed(serializer, file, OfLink(db.rows, link), records)
    }

    /** Opens the data file as it is, an empty one for a new link. */
    constructor (serializer: Serializer, db: Database, link: int, file: seq<Octet>, ghost records: seq<Record>)
      requires SelfDelimiting(serializer) && db.Valid() && AllIndexed(serializer, file, OfLink(db.rows, link), records)
      ensures Valid() && this.records == records && this.db == db && this.link == link
    {
      this.serializer, this.db, this.link := serializer, db, link;
      this.file, this.records := file, records;
    }

    /** Reads a bundle from an offset of the file; if it cannot be read, the bundle stays empty. */
    method ReadAt(offset: nat) returns (bundles: Bundle)
      ensures offset <= |file| ==>
                bundles == match serializer.read(file[offset..]) case Some(b) => b case None => EMPTY
    {
      bundles := EMPTY;
      if offset <= |file| {
        var read := serializer.read(file[offset..]);
        if read.Some? {
          bundles := read.value;
        }
      }
    }

    method GetById(id: nat) returns (bundles: Bundle)
      requires Valid()
      ensures forall i :: 0 <= i < |records| && OfLink(db.rows, link)[i].id == id ==> bundles == records[i].bundle
    {
      hide OfLink, Ascending, SelfDelimiting;
      var row := ById(db.rows, id);
      bundles := EMPTY;
      if row.Some? {
        bundles := ReadAt(row.value.offset);
      }
      forall i | 0 <= i < |records| && OfLink(db.rows, link)[i].id == id ensures bundles == records[i].bundle {
        var own := OfLink(db.rows, link)[i];
        ByIdFinds(db.rows, db.nextId, own);
        ReadsOwn(serializer, file, own, records[i]);
      }
    }

    method PutRecordData(key: JString, bundles: Bundle)
      requires Valid()
      modifies this, db
      ensures Valid() && records == Apply(old(records), Put(key, bundles))
      ensures forall other :: other != link ==> OfLink(db.rows, other) == OfLink(old(db.rows), other)
    {
      hide OfLink, SelfDelimiting, Indexes;
      ghost var rows := OfLink(db.rows, link);
      var offset := |file|;
      var before := file;
      file := file + serializer.write(bundles);
      OthersUntouched(db.rows, Row(db.nextId, link, offset, key));
      db.InsertDataIndex(link, offset, key);
      records := records + [Record(key, bundles)];
      Appended(serializer, before, serializer.write(bundles), rows, old(records));
      AtEnd(serializer, before, OfLink(db.rows, link)[|rows|], records[|rows|]);
    }

    method GetRecordData(key: JString) returns (bundles: Bundle)
      requires Valid()
      ensures bundles == Get(db.same, records, key)
    {
      hide OfLink, SelfDelimiting, Ascending, Indexes, Latest;
      var row := Latest(db.same, db.rows, link, key);
      LatestOf(db.same, db.rows, link, key);
      OfLinkKeepsOrder(db.rows, link, db.nextId);
      LatestIsGet(serializer, file, db.same, OfLink(db.rows, link), records, link, key, db.nextId);
      bundles := EMPTY;
      if row.Some? {
        bundles := ReadAt(row.value.offset);
      }
    }

    /** Signs one record anew. */
    method SignAnew(ghost i: nat, id: nat, sign: Option<nat> -> JString)
      requires Valid() && i < |records| && OfLink(db.rows, link)[i].id == id
      modifies this`records, db
      ensures Valid() && Ids(OfLink(db.rows, link)) == Ids(old(OfLink(db.rows, link)))
      ensures records == old(records)[i := Record(sign(old(records)[i].bundle.request), old(records)[i].bundle)]
      ensures forall other :: other != link ==> OfLink(db.rows, other) == OfLink(old(db.rows), other)
    {
      hide OfLink, SelfDelimiting, Ascending, Indexes;
      var bundles := GetById(id);
      var key := sign(bundles.request);
      ghost var rows, before := OfLink(db.rows, link), db.rows;
      ForeignIds(before, db.nextId, link, id, key);
      db.UpdateDataIndexSign(id, key);
      WithSignatureOf(before, id, key, link);
      OfLinkKeepsOrder(before, link, db.nextId);
      Resign(serializer, file, rows, records, i, key, db.nextId);
      records := records[i := Record(key, records[i].bundle)];
    }

    /** Signs every recorded request anew. */
    method SignerChanged(sign: Option<nat> -> JString)
      requires Valid()
      modifies this, db
      ensures Valid() && records == Apply(old(records), Op.SignerChanged(sign))
      ensures file == old(file)
      ensures forall other :: other != link ==> OfLink(db.rows, other) == OfLink(old(db.rows), other)
    {
      hide OfLink, SelfDelimiting, Ascending, Indexes;
      var ids := Ids(OfLink(db.rows, link));
      ghost var target := Resigned(records, sign);
      ghost var first := db.rows;
      for i := 0 to |ids|
        invariant Valid() && file == old(file) && |records| == |ids|
        invariant Ids(OfLink(db.rows, link)) == ids
        invariant records == target[..i] + old(records)[i..]
        invariant forall other :: other != link ==> OfLink(db.rows, other) == OfLink(first, other)
      {
        SignAnew(i, ids[i], sign);
        assert records == target[..i + 1] + old(records)[i + 1..];
      }
      assert target[..|ids|] == target && old(records)[|ids|..] == [];
    }

    method DeleteRecordData()
      requires Valid()
      modifies this, db
      ensures Valid() && records == Apply(old(records), Delete)
      ensures forall other :: other != link ==> OfLink(db.rows, other) == OfLink(old(db.rows), other)
    {
      hide SelfDelimiting;
      ghost var rows := db.rows;
      db.DeleteDataIndex(link);
      forall other: int ensures OfLink(db.rows, other) == if other == link then [] else OfLink(rows, other) {
        WithoutOf(rows, link, other);
      }
      file := [];
      records := [];
    }

    /** Any run: what the storage holds is what the list of records holds. */
    method Perform(ops: seq<Op>)
      requires Valid() && records == []
      modifies this, db
      ensures Valid() && records == Run(ops)
    {
      hide OfLink, SelfDelimiting, AllIndexed, Apply;
      for i := 0 to |ops|
        invariant Valid() && records == Run(ops[..i])
      {
        assert ops[..i + 1][..i] == ops[..i];
        match ops[i] {
          case Put(signature, bundle) => PutRecordData(signature, bundle);
          case SignerChanged(sign) => SignerChanged(sign);
          case Delete => DeleteRecordData();
        }
      }
      assert ops[..|ops|] == ops;
    }
  }

  // ---- why it works -------------------------------------------------------------------------------------------------

  /** Reading at the offset of a record gives its bundle, whatever was appended behind it. */
  lemma ReadsOwn(s: Serializer, file: seq<Octet>, row: Row, record: Record)
    requires SelfDelimiting(s) && Indexes(s, file, row, record)
    ensures row.signature == record.signature
    ensures row.offset <= |file| && s.read(file[row.offset..]) == Some(record.bundle)
  {
    var bytes := s.write(record.bundle);
    var end := row.offset + |bytes|;
    assert file[row.offset..] == bytes + file[end..];
  }

  /** Appending to the file moves nothing. */
  lemma Appended(s: Serializer, file: seq<Octet>, more: seq<Octet>, rows: seq<Row>, records: seq<Record>)
    requires AllIndexed(s, file, rows, records)
    ensures AllIndexed(s, file + more, rows, records)
  {
    forall i | 0 <= i < |rows| ensures Indexes(s, file + more, rows[i], records[i]) {
      var a, b := rows[i].offset, rows[i].offset + |s.write(records[i].bundle)|;
      assert (file + more)[a..b] == file[a..b];
    }
  }

  lemma AtEnd(s: Serializer, file: seq<Octet>, row: Row, record: Record)
    requires row.offset == |file| && row.signature == record.signature
    ensures Indexes(s, file + s.write(record.bundle), row, record)
  {
  }

  lemma OthersUntouched(rows: seq<Row>, row: Row)
    ensures forall link :: OfLink(rows + [row], link) == OfLink(rows, link) + if row.link == link then [row] else []
    ensures forall link :: OfLink(rows, link) + [] == OfLink(rows, link)
  {
    hide OfLink;
    forall link: int ensures OfLink(rows + [row], link) == OfLink(rows, link) + if row.link == link then [row] else [] {
      OfLinkSnoc(rows, row, link);
    }
  }

  /** An identifier of this link is no other link's, so signing it anew leaves the others alone. */
  lemma {:induction false} ForeignIds(rows: seq<Row>, next: nat, link: int, id: nat, key: JString)
    requires Ascending(rows, next) && exists r :: r in OfLink(rows, link) && r.id == id
    ensures forall other :: other != link ==> OfLink(WithSignature(rows, id, key), other) == OfLink(rows, other)
  {
    hide OfLink;
    var r :| r in OfLink(rows, link) && r.id == id;
    forall other | other != link ensures OfLink(WithSignature(rows, id, key), other) == OfLink(rows, other) {
      WithSignatureOf(rows, id, key, other);
      var mine := OfLink(rows, other);
      forall i | 0 <= i < |mine| ensures mine[i].id != id {
        SameIdSameRow(rows, next, mine[i], r);
      }
      assert WithSignature(mine, id, key) == mine;
    }
  }

  lemma SameIdSameRow(rows: seq<Row>, next: nat, a: Row, b: Row)
    requires Ascending(rows, next) && a in rows && b in rows
    ensures a.id == b.id ==> a == b
  {
    var i :| 0 <= i < |rows| && rows[i] == a;
    var j :| 0 <= j < |rows| && rows[j] == b;
  }

  /** Updating one row re-signs its record. */
  lemma Resign(s: Serializer, file: seq<Octet>, rows: seq<Row>, records: seq<Record>, i: nat, key: JString, next: nat)
    requires AllIndexed(s, file, rows, records) && i < |rows| && Ascending(rows, next)
    ensures AllIndexed(s, file, WithSignature(rows, rows[i].id, key), records[i := Record(key, records[i].bundle)])
    ensures Ids(WithSignature(rows, rows[i].id, key)) == Ids(rows)
  {
    var after, signed := WithSignature(rows, rows[i].id, key), records[i := Record(key, records[i].bundle)];
    forall k | 0 <= k < |rows| ensures Indexes(s, file, after[k], signed[k]) {
      assert Indexes(s, file, rows[k], records[k]);
      if k != i {
        assert rows[k].id != rows[i].id;
      }
    }
  }

  /** The row with the greatest identifier is that of the record put last. */
  lemma {:induction false} LatestIsGet(s: Serializer, file: seq<Octet>, same: Collation, rows: seq<Row>,
      records: seq<Record>, link: int, key: JString, next: nat)
    requires SelfDelimiting(s) && AllIndexed(s, file, rows, records) && Ascending(rows, next)
    requires forall i :: 0 <= i < |rows| ==> rows[i].link == link
    ensures var row := Latest(same, rows, link, key);
            && (row.None? ==> Get(same, records, key) == EMPTY)
            && (row.Some? ==>
                  && row.value.id < next && row.value.offset <= |file|
                  && s.read(file[row.value.offset..]) == Some(Get(same, records, key)))
    decreases |rows|
  {
    hide SelfDelimiting, Indexes;
    if rows != [] {
      var n := |rows| - 1;
      LatestIsGet(s, file, same, rows[..n], records[..n], link, key, rows[n].id);
      ReadsOwn(s, file, rows[n], records[n]);
    }
  }

  // ---- what the list of records promises ----------------------------------------------------------------------------

  /** What was put last under a key is what is got. */
  lemma GetAfterPut(same: Collation, records: seq<Record>, key: JString, bundle: Bundle, other: JString)
    ensures Get(same, Apply(records, Put(key, bundle)), other)
         == if same(key, other) then bundle else Get(same, records, other)
  {
    assert (records + [Record(key, bundle)])[..|records|] == records;
  }

  /** What `get` finds was put, has the key's signature, and nothing put later has. */
  lemma {:induction false} GetIsLast(same: Collation, records: seq<Record>, key: JString, i: nat)
    requires i < |records| && same(records[i].signature, key)
    requires forall j :: i < j < |records| ==> !same(records[j].signature, key)
    ensures Get(same, records, key) == records[i].bundle
  {
    if i < |records| - 1 {
      GetIsLast(same, records[..|records| - 1], key, i);
    }
  }

  lemma {:induction false} GetMisses(same: Collation, records: seq<Record>, key: JString)
    requires forall i :: 0 <= i < |records| ==> !same(records[i].signature, key)
    ensures Get(same, records, key) == EMPTY
  {
    if records != [] {
      GetMisses(same, records[..|records| - 1], key);
    }
  }

  /** After a change of signer a request finds the last record whose request the new signer signs alike. */
  lemma {:induction false} GetAfterSignerChanged(same: Collation, records: seq<Record>, sign: Option<nat> -> JString,
      key: JString, i: nat)
    requires i < |records| && same(sign(records[i].bundle.request), key)
    requires forall j :: i < j < |records| ==> !same(sign(records[j].bundle.request), key)
    ensures Get(same, Apply(records, Op.SignerChanged(sign)), key) == records[i].bundle
  {
    GetIsLast(same, Resigned(records, sign), key, i);
  }
}
