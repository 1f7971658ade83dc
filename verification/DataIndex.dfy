/** The table data_index, shared by all links, and the statements of DataIndexMapper.xml on it. */
module DataIndex {
  import opened Common
  import opened JavaText

  datatype Row = Row(id: nat, link: int, offset: nat, signature: JString)

  /** When the database takes two signatures for the same: its collation need not be equality. */
  type Collation = (JString, JString) -> bool

  function OfLink(rows: seq<Row>, link: int): (r: seq<Row>)
    ensures forall i :: 0 <= i < |r| ==> r[i] in rows && r[i].link == link
  {
    if rows == [] then []
    else OfLink(rows[..|rows| - 1], link) + if rows[|rows| - 1].link == link then [rows[|rows| - 1]] else []
  }

  /** `delete … where link_id = link` */
  function WithoutLink(rows: seq<Row>, link: int): seq<Row> {
    if rows == [] then []
    else WithoutLink(rows[..|rows| - 1], link) + if rows[|rows| - 1].link == link then [] else [rows[|rows| - 1]]
  }

  /** `update … set signature = signature where id = id` */
  function WithSignature(rows: seq<Row>, id: nat, signature: JString): (r: seq<Row>)
    ensures |r| == |rows|
    ensures forall i :: 0 <= i < |r| ==> r[i] == if rows[i].id == id then rows[i].(signature := signature) else rows[i]
  {
    seq(|rows|, i requires 0 <= i < |rows| => if rows[i].id == id then rows[i].(signature := signature) else rows[i])
  }

  /** `… where link_id = link and signature = signature order by id desc limit 1` */
  function Latest(same: Collation, rows: seq<Row>, link: int, signature: JString): Option<Row> {
    if rows == [] then None
    else
      var before, row := Latest(same, rows[..|rows| - 1], link, signature), rows[|rows| - 1];
      if row.link == link && same(row.signature, signature) && (before.None? || before.value.id < row.id) then Some(row)
      else before
  }

  /** `… where id = id` */
  function ById(rows: seq<Row>, id: nat): (r: Option<Row>)
    ensures r.Some? ==> r.value in rows && r.value.id == id
  {
    if rows == [] then None
    else if rows[|rows| - 1].id == id then Some(rows[|rows| - 1])
    else ById(rows[..|rows| - 1], id)
  }

  function Ids(rows: seq<Row>): (ids: seq<nat>)
    ensures |ids| == |rows| && forall i :: 0 <= i < |ids| ==> ids[i] == rows[i].id
  {
    seq(|rows|, i requires 0 <= i < |rows| => rows[i].id)
  }

  /** Identifiers are handed out in increasing order. */
  predicate Ascending(rows: seq<Row>, next: nat) {
    && (forall i :: 0 <= i < |rows| ==> rows[i].id < next)
    && (forall i, j :: 0 <= i < j < |rows| ==> rows[i].id < rows[j].id)
  }

  class Database {
    const same: Collation
    var rows: seq<Row>
    var nextId: nat

    predicate Valid()
      reads this
    {
      Ascending(rows, nextId)
    }

    constructor (same: Collation)
      ensures Valid() && rows == [] && this.same == same
    {
      this.same := same;
      rows, nextId := [], 1;
    }

    method InsertDataIndex(link: int, offset: nat, signature: JString)
      requires Valid()
      modifies this
      ensures Valid() && rows == old(rows) + [Row(old(nextId), link, offset, signature)]
    {
      rows := rows + [Row(nextId, link, offset, signature)];
      nextId := nextId + 1;
    }

    method UpdateDataIndexSign(id: nat, signature: JString)
      requires Valid()
      modifies this`rows
      ensures Valid() && rows == WithSignature(old(rows), id, signature)
    {
      rows := WithSignature(rows, id, signature);
    }

    method DeleteDataIndex(link: int)
      requires Valid()
      modifies this`rows
      ensures Valid() && rows == WithoutLink(old(rows), link)
    {
      WithoutKeepsOrder(rows, link, nextId);
      rows := WithoutLink(rows, link);
    }
  }

  // ---- laws of the statements ---------------------------------------------------------------------------------------

  lemma OfLinkSnoc(rows: seq<Row>, row: Row, link: int)
    ensures OfLink(rows + [row], link) == OfLink(rows, link) + if row.link == link then [row] else []
  {
    assert (rows + [row])[..|rows|] == rows;
  }

  lemma {:induction false} WithoutOf(rows: seq<Row>, link: int, other: int)
    ensures OfLink(WithoutLink(rows, link), other) == if other == link then [] else OfLink(rows, other)
  {
    if rows != [] {
      var init, row := rows[..|rows| - 1], rows[|rows| - 1];
      WithoutOf(init, link, other);
      if row.link != link {
        OfLinkSnoc(WithoutLink(init, link), row, other);
      } else {
        assert WithoutLink(rows, link) == WithoutLink(init, link);
        assert OfLink(init, other) + [] == OfLink(init, other);
      }
    }
  }

  lemma {:induction false} WithoutKeepsOrder(rows: seq<Row>, link: int, next: nat)
    requires Ascending(rows, next)
    ensures Ascending(WithoutLink(rows, link), next)
    ensures forall r :: r in WithoutLink(rows, link) ==> r in rows
  {
    if rows != [] {
      var init, row := rows[..|rows| - 1], rows[|rows| - 1];
      WithoutKeepsOrder(init, link, row.id);
      forall r | r in WithoutLink(init, link) ensures r in rows {
        assert r in init;
      }
      assert WithoutLink(rows, link) == WithoutLink(init, link) + if row.link == link then [] else [row];
    }
  }

  lemma {:induction false} OfLinkKeepsOrder(rows: seq<Row>, link: int, next: nat)
    requires Ascending(rows, next)
    ensures Ascending(OfLink(rows, link), next)
  {
    if rows != [] {
      OfLinkKeepsOrder(rows[..|rows| - 1], link, rows[|rows| - 1].id);
    }
  }

  lemma {:induction false} WithSignatureOf(rows: seq<Row>, id: nat, signature: JString, link: int)
    ensures OfLink(WithSignature(rows, id, signature), link) == WithSignature(OfLink(rows, link), id, signature)
  {
    if rows != [] {
      var init := rows[..|rows| - 1];
      WithSignatureOf(init, id, signature, link);
      assert WithSignature(rows, id, signature)[..|init|] == WithSignature(init, id, signature);
    }
  }

  /** The latest row of a link is found among the rows of that link. */
  lemma {:induction false} LatestOf(same: Collation, rows: seq<Row>, link: int, signature: JString)
    ensures Latest(same, rows, link, signature) == Latest(same, OfLink(rows, link), link, signature)
  {
    if rows != [] {
      var init, row := rows[..|rows| - 1], rows[|rows| - 1];
      LatestOf(same, init, link, signature);
      if row.link == link {
        var mine := OfLink(init, link);
        assert (mine + [row])[..|mine|] == mine;
      } else {
        assert OfLink(rows, link) == OfLink(init, link);
      }
    }
  }

  lemma {:induction false} ByIdFinds(rows: seq<Row>, next: nat, row: Row)
    requires Ascending(rows, next) && row in rows
    ensures ById(rows, row.id) == Some(row)
  {
    if rows[|rows| - 1].id != row.id {
      assert row in rows[..|rows| - 1];
      ByIdFinds(rows[..|rows| - 1], rows[|rows| - 1].id, row);
    } else {
      var i :| 0 <= i < |rows| && rows[i] == row;
    }
  }
}
