/**
 The paged backfill of encrypted columns.  A table is the list of its rows in the order of their ids,
 which is the order the pages are read in.  Other sessions may insert rows between two pages.
 */
module Backfill {
  import opened Octets
  import opened Wrappers

  type Nonce = n: Bytes | |n| == 12 witness seq(12, _ => 0)

  const BATCH_SIZE: nat := 1000

  /** A plaintext column, the name its blind index is separated by, and whether it has one. */
  datatype Column = Column(name: string, fieldName: string, hasIndex: bool)

  datatype Row = Row(id: nat, plain: seq<Option<string>>, enc: seq<Option<Bytes>>, idx: seq<Option<string>>)

  /** AES-GCM and the keyed blind index, as functions; the nonces are drawn at random. */
  datatype Crypto = Crypto(
    seal: (Bytes, Nonce, string) -> Bytes,
    open: (Bytes, Nonce, Bytes) -> Option<string>,
    blind: (string, string) -> string,
    nonce: nat -> Nonce)

  ghost predicate Correct(crypto: Crypto) {
    forall key, nonce, text :: crypto.open(key, nonce, crypto.seal(key, nonce, text)) == Some(text)
  }

  /** A version byte, the nonce, the ciphertext. */
  function EncryptValue(crypto: Crypto, key: Bytes, nonce: Nonce, text: string): Bytes {
    [1] + nonce + crypto.seal(key, nonce, text)
  }

  function DecryptValue(crypto: Crypto, key: Bytes, stored: Bytes): Option<string> {
    if |stored| < 13 || stored[0] != 1 then None else crypto.open(key, stored[1..13], stored[13..])
  }

  lemma DecryptUndoesEncrypt(crypto: Crypto, key: Bytes, nonce: Nonce, text: string)
    requires Correct(crypto)
    ensures DecryptValue(crypto, key, EncryptValue(crypto, key, nonce, text)) == Some(text)
  {
    var stored := EncryptValue(crypto, key, nonce, text);
    assert stored[1..13] == nonce && stored[13..] == crypto.seal(key, nonce, text);
  }

  predicate Shaped(columns: seq<Column>, row: Row) {
    |row.plain| == |row.enc| == |row.idx| == |columns|
  }

  predicate Ascending(rows: seq<Row>) {
    forall i, j :: 0 <= i < j < |rows| ==> rows[i].id < rows[j].id
  }

  /** Column i of the row is encrypted and indexed as its plaintext asks. */
  predicate CellDone(crypto: Crypto, key: Bytes, columns: seq<Column>, row: Row, i: nat)
    requires Shaped(columns, row) && i < |columns|
  {
    row.plain[i].Some? ==>
      row.enc[i].Some? && DecryptValue(crypto, key, row.enc[i].value) == row.plain[i] &&
      (columns[i].hasIndex ==> row.idx[i] == Some(crypto.blind(row.plain[i].value, columns[i].fieldName)))
  }

  predicate Done(crypto: Crypto, key: Bytes, columns: seq<Column>, row: Row) {
    Shaped(columns, row) && forall i :: 0 <= i < |columns| ==> CellDone(crypto, key, columns, row, i)
  }

  /** Nothing about the row has changed that a backfill may not change. */
  predicate Respected(columns: seq<Column>, before: Row, row: Row) {
    && Shaped(columns, before) && Shaped(columns, row) && row.id == before.id && row.plain == before.plain
    && forall i :: 0 <= i < |columns| ==>
         (row.plain[i].None? ==> row.enc[i] == before.enc[i]) &&
         (row.plain[i].None? || !columns[i].hasIndex ==> row.idx[i] == before.idx[i])
  }

  /** The inner loop: one row, column by column. */
  method FillRow(crypto: Crypto, key: Bytes, columns: seq<Column>, row: Row, drawn: nat)
    returns (filled: Row, drawn': nat)
    requires Correct(crypto) && Shaped(columns, row)
    ensures Done(crypto, key, columns, filled) && Respected(columns, row, filled)
  {
    filled, drawn' := row, drawn;
    for i := 0 to |columns|
      invariant Respected(columns, row, filled)
      invariant forall k :: 0 <= k < i ==> CellDone(crypto, key, columns, filled, k)
    {
      if row.plain[i].Some? {
        var value := row.plain[i].value;
        ghost var previous := filled;
        DecryptUndoesEncrypt(crypto, key, crypto.nonce(drawn'), value);
        filled := filled.(enc := filled.enc[i := Some(EncryptValue(crypto, key, crypto.nonce(drawn'), value))]);
        drawn' := drawn' + 1;
        if columns[i].hasIndex {
          filled := filled.(idx := filled.idx[i := Some(crypto.blind(value, columns[i].fieldName))]);
        }
        forall k | 0 <= k < i ensures CellDone(crypto, key, columns, filled, k) {
          assert CellDone(crypto, key, columns, previous, k);
        }
        assert CellDone(crypto, key, columns, filled, i);
      }
    }
  }

  // ------------------------------------------------------------------------------------------
  // Concurrent inserts
  // ------------------------------------------------------------------------------------------

  /** How many rows come before the new one in id order. */
  function Position(rows: seq<Row>, row: Row): (at: nat)
    ensures at <= |rows|
  {
    if rows == [] || row.id < rows[0].id then 0 else 1 + Position(rows[1..], row)
  }

  function Insert(rows: seq<Row>, row: Row): seq<Row> {
    var at := Position(rows, row);
    rows[..at] + [row] + rows[at..]
  }

  function InsertAll(rows: seq<Row>, added: seq<Row>): seq<Row>
    decreases |added|
  {
    if added == [] then rows else InsertAll(Insert(rows, added[0]), added[1..])
  }

  predicate HasId(rows: seq<Row>, id: nat) {
    exists i :: 0 <= i < |rows| && rows[i].id == id
  }

  /** Rows a session can insert: of the table's shape, with ids not taken yet. */
  predicate Insertable(columns: seq<Column>, rows: seq<Row>, added: seq<Row>)
    decreases |added|
  {
    added == [] ||
    (Shaped(columns, added[0]) && !HasId(rows, added[0].id) && Insertable(columns, Insert(rows, added[0]), added[1..]))
  }

  lemma {:induction false} PositionSeparates(rows: seq<Row>, row: Row)
    requires Ascending(rows) && !HasId(rows, row.id)
    ensures forall i :: 0 <= i < |rows| ==> (rows[i].id < row.id <==> i < Position(rows, row))
    ensures forall i :: 0 <= i < |rows| ==> (row.id < rows[i].id <==> i >= Position(rows, row))
  {
    if rows != [] && rows[0].id <= row.id {
      var rest := rows[1..];
      assert rows[0].id != row.id;
      assert forall i :: 0 <= i < |rest| ==> rest[i] == rows[i + 1];
      PositionSeparates(rest, row);
      forall i | 0 <= i < |rows|
        ensures rows[i].id < row.id <==> i < Position(rows, row)
        ensures row.id < rows[i].id <==> i >= Position(rows, row)
      {
        assert i > 0 ==> rows[i] == rest[i - 1];
      }
    }
  }

  lemma {:induction false} PositionByIds(plain: seq<Row>, rows: seq<Row>, row: Row)
    requires SameIds(plain, rows)
    ensures Position(plain, row) == Position(rows, row)
  {
    if plain != [] {
      assert SameIds(plain[1..], rows[1..]);
      PositionByIds(plain[1..], rows[1..], row);
    }
  }

  predicate SameIds(plain: seq<Row>, rows: seq<Row>) {
    |plain| == |rows| && forall p :: 0 <= p < |rows| ==> rows[p].id == plain[p].id
  }

  lemma InsertKeepsAscending(rows: seq<Row>, row: Row)
    requires Ascending(rows) && !HasId(rows, row.id)
    ensures Ascending(Insert(rows, row))
  {
    PositionSeparates(rows, row);
  }

  lemma {:induction false} InsertsKeepAscending(columns: seq<Column>, rows: seq<Row>, added: seq<Row>)
    requires Ascending(rows) && Insertable(columns, rows, added)
    ensures Ascending(InsertAll(rows, added))
    decreases |added|
  {
    if added != [] {
      InsertKeepsAscending(rows, added[0]);
      InsertsKeepAscending(columns, Insert(rows, added[0]), added[1..]);
    }
  }

  // ------------------------------------------------------------------------------------------
  // The table the loop works on
  // ------------------------------------------------------------------------------------------

  /** The table after other sessions had their turn; a batch that does not fit it is rejected as a whole. */
  function AfterGap(columns: seq<Column>, rows: seq<Row>, added: seq<Row>): seq<Row> {
    if Insertable(columns, rows, added) then InsertAll(rows, added) else rows
  }

  /** The table at the end of the loop, had nothing been encrypted. */
  function PlainTable(columns: seq<Column>, rows: seq<Row>, inserts: seq<seq<Row>>, offset: nat): seq<Row>
    decreases |inserts|
  {
    if offset >= |rows| || inserts == [] then rows
    else PlainTable(columns, AfterGap(columns, rows, inserts[0]), inserts[1..], offset + BATCH_SIZE)
  }

  function IdsBetween(rows: seq<Row>, lo: nat, hi: nat): set<nat>
    requires hi <= |rows|
  {
    set i | lo <= i < hi :: rows[i].id
  }

  function PageEnd(rows: seq<Row>, offset: nat): nat {
    if offset + BATCH_SIZE < |rows| then offset + BATCH_SIZE else |rows|
  }

  /** The ids of the rows that stand on some page when it is read. */
  function ReadIds(columns: seq<Column>, rows: seq<Row>, inserts: seq<seq<Row>>, offset: nat): set<nat>
    decreases |inserts|
  {
    if offset >= |rows| then {}
    else if inserts == [] then IdsBetween(rows, offset, |rows|)
    else
      IdsBetween(rows, offset, PageEnd(rows, offset))
      + ReadIds(columns, AfterGap(columns, rows, inserts[0]), inserts[1..], offset + BATCH_SIZE)
  }

  /** One page further on. */
  lemma ReadNext(columns: seq<Column>, rows: seq<Row>, inserts: seq<seq<Row>>, offset: nat)
    requires offset < |rows|
    ensures var after := if inserts == [] then rows else AfterGap(columns, rows, inserts[0]);
      var rest := if inserts == [] then [] else inserts[1..];
      && PlainTable(columns, rows, inserts, offset) == PlainTable(columns, after, rest, offset + BATCH_SIZE)
      && ReadIds(columns, rows, inserts, offset) ==
           IdsBetween(rows, offset, PageEnd(rows, offset)) + ReadIds(columns, after, rest, offset + BATCH_SIZE)
  {
    if inserts == [] && offset + BATCH_SIZE < |rows| {
      assert IdsBetween(rows, offset, |rows|) ==
        IdsBetween(rows, offset, offset + BATCH_SIZE) + IdsBetween(rows, offset + BATCH_SIZE, |rows|);
    }
  }

  /**
   The rows are those of the plain table, in place: encrypted and indexed where they have been read, and
   exactly as they were everywhere else.
   */
  ghost predicate Backfills(
      crypto: Crypto, key: Bytes, columns: seq<Column>, plain: seq<Row>, read: set<nat>, rows: seq<Row>)
  {
    && SameIds(plain, rows)
    && forall p :: 0 <= p < |rows| ==> RowBackfills(crypto, key, columns, plain[p], read, rows[p])
  }

  ghost predicate RowBackfills(
      crypto: Crypto, key: Bytes, columns: seq<Column>, plain: Row, read: set<nat>, row: Row)
  {
    Shaped(columns, plain) &&
    if plain.id in read then Respected(columns, plain, row) && Done(crypto, key, columns, row) else row == plain
  }

  lemma InsertBackfills(
      crypto: Crypto, key: Bytes, columns: seq<Column>, plain: seq<Row>, read: set<nat>, rows: seq<Row>, row: Row)
    requires Backfills(crypto, key, columns, plain, read, rows)
    requires Shaped(columns, row) && row.id !in read
    ensures Backfills(crypto, key, columns, Insert(plain, row), read, Insert(rows, row))
  {
    PositionByIds(plain, rows, row);
    var at, longer, done := Position(plain, row), Insert(plain, row), Insert(rows, row);
    forall p | 0 <= p < |done|
      ensures done[p].id == longer[p].id && RowBackfills(crypto, key, columns, longer[p], read, done[p])
    {
      if p < at {
        assert RowBackfills(crypto, key, columns, plain[p], read, rows[p]);
      } else if p > at {
        assert RowBackfills(crypto, key, columns, plain[p - 1], read, rows[p - 1]);
      }
    }
  }

  lemma SameIdsSameInserts(columns: seq<Column>, plain: seq<Row>, rows: seq<Row>, row: Row)
    requires SameIds(plain, rows)
    ensures HasId(plain, row.id) <==> HasId(rows, row.id)
    ensures SameIds(Insert(plain, row), Insert(rows, row))
  {
    PositionByIds(plain, rows, row);
    if HasId(rows, row.id) {
      var p :| 0 <= p < |rows| && rows[p].id == row.id;
      assert plain[p].id == row.id;
    }
  }

  lemma {:induction false} InsertableByIds(columns: seq<Column>, plain: seq<Row>, rows: seq<Row>, added: seq<Row>)
    requires SameIds(plain, rows)
    ensures Insertable(columns, plain, added) <==> Insertable(columns, rows, added)
    decreases |added|
  {
    if added != [] {
      SameIdsSameInserts(columns, plain, rows, added[0]);
      InsertableByIds(columns, Insert(plain, added[0]), Insert(rows, added[0]), added[1..]);
    }
  }

  ghost predicate AllPresent(rows: seq<Row>, ids: set<nat>) {
    forall id {:trigger HasId(rows, id)} :: id in ids ==> HasId(rows, id)
  }

  lemma InsertKeepsPresent(rows: seq<Row>, ids: set<nat>, row: Row)
    requires AllPresent(rows, ids)
    ensures AllPresent(Insert(rows, row), ids)
  {
    var at, longer := Position(rows, row), Insert(rows, row);
    forall id | id in ids ensures HasId(longer, id) {
      assert HasId(rows, id);
      var i :| 0 <= i < |rows| && rows[i].id == id;
      assert longer[if i < at then i else i + 1] == rows[i];
    }
  }

  /** What other sessions insert appears in both tables alike, and has not been read. */
  lemma {:induction false} InsertsBackfill(
      crypto: Crypto, key: Bytes, columns: seq<Column>, plain: seq<Row>, read: set<nat>, rows: seq<Row>,
      added: seq<Row>)
    requires Backfills(crypto, key, columns, plain, read, rows) && AllPresent(plain, read)
    requires Insertable(columns, plain, added)
    ensures Backfills(crypto, key, columns, InsertAll(plain, added), read, InsertAll(rows, added))
    ensures AllPresent(InsertAll(plain, added), read)
    decreases |added|
  {
    if added != [] {
      assert !HasId(plain, added[0].id);
      InsertBackfills(crypto, key, columns, plain, read, rows, added[0]);
      InsertKeepsPresent(plain, read, added[0]);
      InsertsBackfill(
        crypto, key, columns, Insert(plain, added[0]), read, Insert(rows, added[0]), added[1..]);
    }
  }

  lemma GapBackfills(
      crypto: Crypto, key: Bytes, columns: seq<Column>, plain: seq<Row>, read: set<nat>, rows: seq<Row>,
      added: seq<Row>)
    requires Ascending(plain) && Backfills(crypto, key, columns, plain, read, rows)
    requires AllPresent(plain, read)
    ensures var plain' := AfterGap(columns, plain, added);
      && Ascending(plain') && AllPresent(plain', read)
      && Backfills(crypto, key, columns, plain', read, AfterGap(columns, rows, added))
  {
    InsertableByIds(columns, plain, rows, added);
    if Insertable(columns, plain, added) {
      InsertsKeepAscending(columns, plain, added);
      InsertsBackfill(crypto, key, columns, plain, read, rows, added);
    }
  }

  // ------------------------------------------------------------------------------------------
  // The loop
  // ------------------------------------------------------------------------------------------

  lemma RewriteBackfills(
      crypto: Crypto, key: Bytes, columns: seq<Column>, plain: seq<Row>, read: set<nat>, rows: seq<Row>, p: nat,
      filled: Row)
    requires Ascending(plain) && Backfills(crypto, key, columns, plain, read, rows) && p < |rows|
    requires Respected(columns, rows[p], filled) && Done(crypto, key, columns, filled)
    ensures Backfills(crypto, key, columns, plain, read + {plain[p].id}, rows[p := filled])
  {
    forall q | 0 <= q < |rows|
      ensures RowBackfills(crypto, key, columns, plain[q], read + {plain[p].id}, rows[p := filled][q])
    {
      assert RowBackfills(crypto, key, columns, plain[q], read, rows[q]);
      assert q != p ==> plain[q].id != plain[p].id;
    }
  }

  /** One page: the rows from the offset on, at most a batch of them. */
  method BackfillPage(
      crypto: Crypto, key: Bytes, columns: seq<Column>, ghost plain: seq<Row>, ghost read: set<nat>, rows: seq<Row>,
      offset: nat, drawn: nat)
    returns (rows': seq<Row>, drawn': nat)
    requires Correct(crypto) && Ascending(plain) && offset < |rows|
    requires Backfills(crypto, key, columns, plain, read, rows)
    ensures Backfills(
      crypto, key, columns, plain, read + IdsBetween(plain, offset, PageEnd(plain, offset)), rows')
    ensures forall p :: 0 <= p < |rows'| ==>
      if offset <= p < offset + 1000 then Done(crypto, key, columns, rows'[p]) else rows'[p] == rows[p]
  {
    rows', drawn' := rows, drawn;
    var end := PageEnd(rows, offset);
    assert IdsBetween(plain, offset, offset) == {};
    for p: nat := offset to end
      invariant Backfills(crypto, key, columns, plain, read + IdsBetween(plain, offset, p), rows')
      invariant forall q :: 0 <= q < |rows'| ==>
        if offset <= q < p then Done(crypto, key, columns, rows'[q]) else rows'[q] == rows[q]
    {
      ghost var seen := read + IdsBetween(plain, offset, p);
      assert RowBackfills(crypto, key, columns, plain[p], seen, rows'[p]);
      var filled, d := FillRow(crypto, key, columns, rows'[p], drawn');
      RewriteBackfills(crypto, key, columns, plain, seen, rows', p, filled);
      assert seen + {plain[p].id} == read + IdsBetween(plain, offset, p + 1);
      rows' := rows'[p := filled];
      drawn' := d;
    }
  }

  /** What is left of the inserts once the session's turn after a page is over. */
  function Later(inserts: seq<seq<Row>>): seq<seq<Row>> {
    if inserts == [] then [] else inserts[1..]
  }

  /** The table after the turn, if there is one. */
  function AfterTurn(columns: seq<Column>, rows: seq<Row>, inserts: seq<seq<Row>>): seq<Row> {
    if inserts == [] then rows else AfterGap(columns, rows, inserts[0])
  }

  /** What is done and what is still to come add up to the whole. */
  ghost predicate StandsAt(
      crypto: Crypto, key: Bytes, columns: seq<Column>, target: seq<Row>, toRead: set<nat>, plain: seq<Row>,
      read: set<nat>, rows: seq<Row>, inserts: seq<seq<Row>>, offset: nat)
  {
    && Ascending(plain) && AllPresent(plain, read)
    && Backfills(crypto, key, columns, plain, read, rows)
    && PlainTable(columns, plain, inserts, offset) == target
    && read + ReadIds(columns, plain, inserts, offset) == toRead
  }

  /** Where the loop stands, for some table it would have without encryption and some rows read so far. */
  ghost predicate Standing(
      crypto: Crypto, key: Bytes, columns: seq<Column>, target: seq<Row>, toRead: set<nat>, rows: seq<Row>,
      inserts: seq<seq<Row>>, offset: nat)
  {
    exists plain, read :: StandsAt(crypto, key, columns, target, toRead, plain, read, rows, inserts, offset)
  }

  lemma PageKeepsStanding(
      crypto: Crypto, key: Bytes, columns: seq<Column>, target: seq<Row>, toRead: set<nat>, plain: seq<Row>,
      read: set<nat>, rows: seq<Row>, rows': seq<Row>, inserts: seq<seq<Row>>, offset: nat)
    requires StandsAt(crypto, key, columns, target, toRead, plain, read, rows, inserts, offset)
    requires offset < |plain|
    requires Backfills(crypto, key, columns, plain, read + IdsBetween(plain, offset, PageEnd(plain, offset)), rows')
    ensures StandsAt(
      crypto, key, columns, target, toRead, AfterTurn(columns, plain, inserts),
      read + IdsBetween(plain, offset, PageEnd(plain, offset)), AfterTurn(columns, rows', inserts),
      Later(inserts), offset + BATCH_SIZE)
  {
    ReadNext(columns, plain, inserts, offset);
    var read' := read + IdsBetween(plain, offset, PageEnd(plain, offset));
    forall id | id in read' ensures HasId(plain, id) {
      assert id in read ==> HasId(plain, id);
    }
    if inserts != [] {
      GapBackfills(crypto, key, columns, plain, read', rows', inserts[0]);
    }
  }

  lemma StandingAtStart(
      crypto: Crypto, key: Bytes, columns: seq<Column>, table: seq<Row>, inserts: seq<seq<Row>>)
    requires Ascending(table) && forall p :: 0 <= p < |table| ==> Shaped(columns, table[p])
    ensures Standing(
      crypto, key, columns, PlainTable(columns, table, inserts, 0), ReadIds(columns, table, inserts, 0), table,
      inserts, 0)
  {
    var target, toRead := PlainTable(columns, table, inserts, 0), ReadIds(columns, table, inserts, 0);
    assert StandsAt(crypto, key, columns, target, toRead, table, {}, table, inserts, 0);
  }

  /** Once a page would be empty, what other sessions might still insert does not concern the loop. */
  lemma StandingAtEnd(
      crypto: Crypto, key: Bytes, columns: seq<Column>, target: seq<Row>, toRead: set<nat>, rows: seq<Row>,
      inserts: seq<seq<Row>>, offset: nat)
    requires Standing(crypto, key, columns, target, toRead, rows, inserts, offset) && offset >= |rows|
    ensures Standing(crypto, key, columns, target, toRead, rows, [], |rows|)
  {
    var plain, read :| StandsAt(crypto, key, columns, target, toRead, plain, read, rows, inserts, offset);
    assert StandsAt(crypto, key, columns, target, toRead, plain, read, rows, [], |rows|);
  }

  lemma StandingAtLast(
      crypto: Crypto, key: Bytes, columns: seq<Column>, target: seq<Row>, toRead: set<nat>, rows: seq<Row>)
    requires Standing(crypto, key, columns, target, toRead, rows, [], |rows|)
    ensures Backfills(crypto, key, columns, target, toRead, rows)
  {
    var plain, read :| StandsAt(crypto, key, columns, target, toRead, plain, read, rows, [], |rows|);
    assert ReadIds(columns, plain, [], |rows|) == {};
  }

  /** A page, and the turn of the other sessions after it. */
  method PageAndTurn(
      crypto: Crypto, key: Bytes, columns: seq<Column>, ghost target: seq<Row>, ghost toRead: set<nat>,
      rows: seq<Row>, inserts: seq<seq<Row>>, offset: nat, drawn: nat)
    returns (rows': seq<Row>, drawn': nat)
    requires Correct(crypto) && offset < |rows|
    requires Standing(crypto, key, columns, target, toRead, rows, inserts, offset)
    ensures Standing(crypto, key, columns, target, toRead, rows', Later(inserts), offset + BATCH_SIZE)
    ensures inserts == [] ==> |rows'| == |rows|
  {
    ghost var plain, read :| StandsAt(crypto, key, columns, target, toRead, plain, read, rows, inserts, offset);
    rows', drawn' := BackfillPage(crypto, key, columns, plain, read, rows, offset, drawn);
    PageKeepsStanding(crypto, key, columns, target, toRead, plain, read, rows, rows', inserts, offset);
    rows' := AfterTurn(columns, rows', inserts);
  }

  /** The loop over the pages. */
  method BackfillPages(
      crypto: Crypto, key: Bytes, columns: seq<Column>, ghost target: seq<Row>, ghost toRead: set<nat>,
      table: seq<Row>, inserts: seq<seq<Row>>)
    returns (rows: seq<Row>)
    requires Correct(crypto) && Standing(crypto, key, columns, target, toRead, table, inserts, 0)
    ensures Standing(crypto, key, columns, target, toRead, rows, [], |rows|)
  {
    rows := table;
    var left, offset: nat, drawn: nat := inserts, 0, 0;
    while offset < |rows|
      invariant Standing(crypto, key, columns, target, toRead, rows, left, offset)
      decreases |left|, |rows| - offset
    {
      rows, drawn := PageAndTurn(crypto, key, columns, target, toRead, rows, left, offset, drawn);
      left, offset := Later(left), offset + BATCH_SIZE;
    }
    StandingAtEnd(crypto, key, columns, target, toRead, rows, left, offset);
  }

  /**
   What other sessions insert after each page is given page by page; after the last of these the table
   stays as it is.  At the end the table is what it would be without the backfill, with exactly the rows
   encrypted that stood on a page when it was read.
   */
  method BackfillTable(
      crypto: Crypto, key: Bytes, columns: seq<Column>, table: seq<Row>, inserts: seq<seq<Row>>)
    returns (rows: seq<Row>)
    requires Correct(crypto) && Ascending(table) && forall p :: 0 <= p < |table| ==> Shaped(columns, table[p])
    ensures Backfills(
      crypto, key, columns, PlainTable(columns, table, inserts, 0), ReadIds(columns, table, inserts, 0), rows)
  {
    ghost var target, toRead := PlainTable(columns, table, inserts, 0), ReadIds(columns, table, inserts, 0);
    StandingAtStart(crypto, key, columns, table, inserts);
    rows := BackfillPages(crypto, key, columns, target, toRead, table, inserts);
    StandingAtLast(crypto, key, columns, target, toRead, rows);
  }

  // ------------------------------------------------------------------------------------------
  // Which rows are read
  // ------------------------------------------------------------------------------------------

  /** Inserts move a row away from the front, if at all. */
  lemma {:induction false} InsertsMoveBack(rows: seq<Row>, added: seq<Row>, p: nat) returns (q: nat)
    requires p < |rows|
    ensures p <= q < |InsertAll(rows, added)| && InsertAll(rows, added)[q] == rows[p]
    decreases |added|
  {
    if added == [] {
      q := p;
    } else {
      var at := Position(rows, added[0]);
      q := InsertsMoveBack(Insert(rows, added[0]), added[1..], if p < at then p else p + 1);
    }
  }

  lemma {:induction false} RowsAheadAreRead(
      columns: seq<Column>, rows: seq<Row>, inserts: seq<seq<Row>>, offset: nat, p: nat)
    requires offset <= p < |rows|
    ensures rows[p].id in ReadIds(columns, rows, inserts, offset)
    decreases |inserts|
  {
    if inserts != [] && p >= PageEnd(rows, offset) {
      var after, q := AfterGap(columns, rows, inserts[0]), p;
      if Insertable(columns, rows, inserts[0]) {
        q := InsertsMoveBack(rows, inserts[0], p);
      }
      RowsAheadAreRead(columns, after, inserts[1..], offset + BATCH_SIZE, q);
      assert after[q] == rows[p];
    }
  }

  /** Whatever other sessions insert, every row of the original table is read. */
  lemma NothingSkipped(columns: seq<Column>, table: seq<Row>, inserts: seq<seq<Row>>)
    ensures IdsBetween(table, 0, |table|) <= ReadIds(columns, table, inserts, 0)
  {
    forall id | id in IdsBetween(table, 0, |table|) ensures id in ReadIds(columns, table, inserts, 0) {
      var p :| 0 <= p < |table| && table[p].id == id;
      RowsAheadAreRead(columns, table, inserts, 0, p);
    }
  }

  function Fitting(columns: seq<Column>, rows: seq<Row>, added: seq<Row>): seq<Row> {
    if Insertable(columns, rows, added) then added else []
  }

  /** The batches that arrive before the loop ends and fit the table. */
  function Accepted(columns: seq<Column>, rows: seq<Row>, inserts: seq<seq<Row>>, offset: nat): seq<Row>
    decreases |inserts|
  {
    if offset >= |rows| || inserts == [] then []
    else
      Fitting(columns, rows, inserts[0])
      + Accepted(columns, AfterGap(columns, rows, inserts[0]), inserts[1..], offset + BATCH_SIZE)
  }

  lemma {:induction false} InsertsAddUp(rows: seq<Row>, added: seq<Row>)
    ensures multiset(InsertAll(rows, added)) == multiset(rows) + multiset(added)
    decreases |added|
  {
    if added != [] {
      var at := Position(rows, added[0]);
      assert rows == rows[..at] + rows[at..] && added == [added[0]] + added[1..];
      InsertsAddUp(Insert(rows, added[0]), added[1..]);
    }
  }

  lemma GapAddsUp(columns: seq<Column>, rows: seq<Row>, added: seq<Row>)
    ensures multiset(AfterGap(columns, rows, added)) == multiset(rows) + multiset(Fitting(columns, rows, added))
  {
    InsertsAddUp(rows, added);
  }

  /** The final table holds the original rows and the accepted inserts, each once, and nothing else. */
  lemma {:induction false} NothingLost(columns: seq<Column>, rows: seq<Row>, inserts: seq<seq<Row>>, offset: nat)
    ensures multiset(PlainTable(columns, rows, inserts, offset)) ==
      multiset(rows) + multiset(Accepted(columns, rows, inserts, offset))
    decreases |inserts|
  {
    if offset < |rows| && inserts != [] {
      var after := AfterGap(columns, rows, inserts[0]);
      GapAddsUp(columns, rows, inserts[0]);
      NothingLost(columns, after, inserts[1..], offset + BATCH_SIZE);
      var first := Fitting(columns, rows, inserts[0]);
      var rest := Accepted(columns, after, inserts[1..], offset + BATCH_SIZE);
      assert multiset(first + rest) == multiset(first) + multiset(rest);
    }
  }

  lemma {:induction false} LargerIdsStayBehind(columns: seq<Column>, rows: seq<Row>, added: seq<Row>, p: nat)
    requires Ascending(rows) && Insertable(columns, rows, added)
    requires p < |rows| && forall r :: r in added ==> r.id > rows[p].id
    ensures p < |InsertAll(rows, added)| && InsertAll(rows, added)[p] == rows[p]
    decreases |added|
  {
    if added != [] {
      assert added[0] in added && forall r :: r in added[1..] ==> r in added;
      PositionSeparates(rows, added[0]);
      InsertKeepsAscending(rows, added[0]);
      LargerIdsStayBehind(columns, Insert(rows, added[0]), added[1..], p);
    }
  }

  /**
   Where a row stands decides whether it is read: with no smaller ids still to come it is read exactly
   when it stands at the offset or behind it.  So an insert that lands before the offset is missed.
   */
  lemma {:induction false} ReadExactlyFromOffset(
      columns: seq<Column>, rows: seq<Row>, inserts: seq<seq<Row>>, offset: nat, p: nat)
    requires Ascending(rows) && p < |rows|
    requires forall b, r :: b in inserts && r in b ==> r.id > rows[p].id
    ensures rows[p].id in ReadIds(columns, rows, inserts, offset) <==> p >= offset
    decreases |inserts|
  {
    if p >= offset {
      RowsAheadAreRead(columns, rows, inserts, offset, p);
    } else if inserts != [] && offset < |rows| {
      var after := AfterGap(columns, rows, inserts[0]);
      assert inserts[0] in inserts && forall b :: b in inserts[1..] ==> b in inserts;
      if Insertable(columns, rows, inserts[0]) {
        InsertsKeepAscending(columns, rows, inserts[0]);
        LargerIdsStayBehind(columns, rows, inserts[0], p);
      }
      ReadExactlyFromOffset(columns, after, inserts[1..], offset + BATCH_SIZE, p);
    }
  }

  /** A row inserted after the only page, with a smaller id than the rest, stays as it was inserted. */
  lemma LateInsertIsMissed(columns: seq<Column>, late: Row, row: Row)
    requires Shaped(columns, late) && late.id < row.id
    ensures PlainTable(columns, [row], [[late]], 0) == [late, row]
    ensures late.id !in ReadIds(columns, [row], [[late]], 0)
  {
    var rows := [row];
    assert !HasId(rows, late.id) && Insert(rows, late) == [late, row];
    assert [late][1..] == [] && [[late]][1..] == [];
    assert Insertable(columns, rows, [late]) && InsertAll(rows, [late]) == Insert(rows, late);
    assert AfterGap(columns, rows, [late]) == [late, row];
    assert PageEnd(rows, 0) == 1 && IdsBetween(rows, 0, 1) == {row.id};
  }

  // ------------------------------------------------------------------------------------------
  // The check the migration suggests
  // ------------------------------------------------------------------------------------------

  /** The rows the check counts: those whose encrypted column is null. */
  function NullRows(rows: seq<Row>, i: nat): set<nat>
    requires forall p :: 0 <= p < |rows| ==> i < |rows[p].enc|
  {
    set p | 0 <= p < |rows| && rows[p].enc[i].None?
  }

  predicate StaysNull(columns: seq<Column>, plain: Row, read: set<nat>, i: nat)
    requires Shaped(columns, plain) && i < |columns|
  {
    plain.enc[i].None? && (plain.plain[i].None? || plain.id !in read)
  }

  /**
   After the backfill an encrypted column is null exactly where it was before and either the plaintext
   is null or the row was inserted too late to be read; the check counts none exactly when there is
   no such row.
   */
  lemma EncryptedNullsExactly(
      crypto: Crypto, key: Bytes, columns: seq<Column>, plain: seq<Row>, read: set<nat>, rows: seq<Row>, i: nat)
    requires Backfills(crypto, key, columns, plain, read, rows) && i < |columns|
    ensures forall p :: 0 <= p < |rows| ==> Shaped(columns, plain[p]) && i < |rows[p].enc|
    ensures NullRows(rows, i) == set p | 0 <= p < |rows| && StaysNull(columns, plain[p], read, i)
    ensures |NullRows(rows, i)| == 0 <==> forall p :: 0 <= p < |rows| ==> !StaysNull(columns, plain[p], read, i)
  {
    forall p | 0 <= p < |rows|
      ensures Shaped(columns, plain[p]) && i < |rows[p].enc|
      ensures rows[p].enc[i].None? <==> StaysNull(columns, plain[p], read, i)
    {
      assert RowBackfills(crypto, key, columns, plain[p], read, rows[p]);
      if plain[p].id in read {
        assert CellDone(crypto, key, columns, rows[p], i);
      }
    }
    assert |NullRows(rows, i)| == 0 <==> NullRows(rows, i) == {};
    forall p | 0 <= p < |rows| && StaysNull(columns, plain[p], read, i) ensures NullRows(rows, i) != {} {
      assert p in NullRows(rows, i);
    }
  }

  /** A vendor without a registration number: its encrypted number stays null, and the check counts it. */
  lemma NullPlaintextIsCounted(crypto: Crypto, key: Bytes, rows: seq<Row>)
    returns (columns: seq<Column>, table: seq<Row>)
    ensures Ascending(table) && forall p :: 0 <= p < |table| ==> Shaped(columns, table[p])
    ensures |columns| == 1 && table == [Row(1, [None], [None], [None])]
    ensures Backfills(crypto, key, columns, PlainTable(columns, table, [], 0), ReadIds(columns, table, [], 0), rows) ==>
      |rows| == 1 && |rows[0].enc| == 1 && |NullRows(rows, 0)| == 1
  {
    columns, table := [Column("udyam_number", "vendor_udyam", true)], [Row(1, [None], [None], [None])];
    var read := ReadIds(columns, table, [], 0);
    if Backfills(crypto, key, columns, table, read, rows) {
      EncryptedNullsExactly(crypto, key, columns, table, read, rows, 0);
      assert StaysNull(columns, table[0], read, 0);
      assert NullRows(rows, 0) == {0};
    }
  }
}
