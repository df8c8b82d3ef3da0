/** Row checksums of the migration verifier (crates/keystone/tpt-keystone-harbor/src/verify.rs:12-59). */
module RowChecksum {

  import opened Bytes
  import opened Wrappers

  type Row = seq<Option<seq<byte>>>

  type u64 = bv64

  // ----- the byte encoding a row hashes over -----

  /** NULL is a zero byte; a value is a one byte, its length as a 32-bit integer, and its bytes. */
  function EncodeCell(cell: Option<seq<byte>>): seq<byte> {
    match cell
    case None => [0]
    case Some(bytes) => [1] + BigEndian(|bytes|, 4) + bytes
  }

  function EncodeRow(row: Row): seq<byte> {
    if |row| == 0 then [] else EncodeCell(row[0]) + EncodeRow(row[1..])
  }

  function DecodeRow(bytes: seq<byte>): Option<Row>
    decreases |bytes|
  {
    if |bytes| == 0 then Some([])
    else if bytes[0] == 0 then
      match DecodeRow(bytes[1..])
      case None => None
      case Some(rest) => Some([None] + rest)
    else if bytes[0] == 1 && |bytes| >= 5 && |bytes| >= 5 + FromBigEndian(bytes[1..5]) then
      var end := 5 + FromBigEndian(bytes[1..5]);
      match DecodeRow(bytes[end..])
      case None => None
      case Some(rest) => Some([Some(bytes[5..end])] + rest)
    else None
  }

  /** Cells shorter than 4 GiB, whose length the prefix holds. */
  predicate Small(row: Row) {
    forall i :: 0 <= i < |row| && row[i].Some? ==> |row[i].value| < Power256(4)
  }

  lemma CellDecodes(cell: Option<seq<byte>>, more: seq<byte>)
    requires cell.Some? ==> |cell.value| < Power256(4)
    ensures DecodeRow(EncodeCell(cell) + more)
         == match DecodeRow(more) case None => None case Some(rest) => Some([cell] + rest)
  {
    var bytes := EncodeCell(cell) + more;
    match cell
    case None =>
      assert bytes[1..] == more;
    case Some(value) =>
      var end := 5 + |value|;
      BigEndianRoundTrip(|value|, 4);
      assert bytes[1..5] == BigEndian(|value|, 4);
      assert bytes[5..end] == value && bytes[end..] == more;
  }

  /** The encoding is uniquely decodable for rows of any width. */
  lemma {:induction false} RowDecodes(row: Row)
    requires Small(row)
    ensures DecodeRow(EncodeRow(row)) == Some(row)
    decreases |row|
  {
    hide EncodeCell, DecodeRow;
    if |row| == 0 {
      EmptyDecodes();
      assert row == [];
    } else {
      RowDecodes(row[1..]);
      CellDecodes(row[0], EncodeRow(row[1..]));
      assert row == [row[0]] + row[1..];
    }
  }

  lemma EmptyDecodes()
    ensures DecodeRow([]) == Some([])
  {}

  lemma {:induction false} FromBigEndianBound(bs: seq<byte>)
    ensures FromBigEndian(bs) < Power256(|bs|)
  {
    if |bs| > 0 {
      FromBigEndianBound(bs[..|bs| - 1]);
    }
  }

  /** Whatever is decoded has small cells: their lengths were read from four bytes. */
  lemma {:induction false} DecodedSmall(bytes: seq<byte>)
    ensures DecodeRow(bytes).Some? ==> Small(DecodeRow(bytes).value)
    decreases |bytes|
  {
    hide Power256, FromBigEndian;
    if DecodeRow(bytes).Some? && |bytes| > 0 {
      if bytes[0] == 0 {
        DecodedSmall(bytes[1..]);
      } else {
        FromBigEndianBound(bytes[1..5]);
        DecodedSmall(bytes[5 + FromBigEndian(bytes[1..5])..]);
      }
    }
  }

  /** A row decodes to itself exactly when all its cells are shorter than 4 GiB. */
  lemma RowDecodesIff(row: Row)
    ensures DecodeRow(EncodeRow(row)) == Some(row) <==> Small(row)
  {
    hide EncodeRow, DecodeRow, Small;
    DecodedSmall(EncodeRow(row));
    if Small(row) {
      RowDecodes(row);
    }
  }

  lemma EncodingInjective(a: Row, b: Row)
    requires Small(a) && Small(b) && EncodeRow(a) == EncodeRow(b)
    ensures a == b
  {
    RowDecodes(a);
    RowDecodes(b);
  }

  // ----- the length bound is needed -----

  function Zeros(n: nat): (r: seq<byte>)
    ensures |r| == n
  {
    if n == 0 then [] else [0] + Zeros(n - 1)
  }

  function Nulls(n: nat): (r: Row)
    ensures |r| == n
  {
    if n == 0 then [] else [None] + Nulls(n - 1)
  }

  lemma {:induction false} NullsEncode(n: nat)
    ensures EncodeRow(Nulls(n)) == Zeros(n)
  {
    if n > 0 {
      NullsEncode(n - 1);
      assert Nulls(n)[1..] == Nulls(n - 1);
    }
  }

  lemma {:induction false} BigEndianWraps(k: nat)
    ensures BigEndian(Power256(k), k) == BigEndian(0, k)
  {
    if k > 0 {
      assert Power256(k) / 256 == Power256(k - 1) && Power256(k) % 256 == 0;
      BigEndianWraps(k - 1);
    }
  }

  /** A 4 GiB cell of zero bytes encodes like an empty cell followed by 2^32 NULLs. */
  lemma LongCellCollides()
    ensures EncodeRow([Some(Zeros(Power256(4)))]) == EncodeRow([Some([])] + Nulls(Power256(4)))
    ensures [Some(Zeros(Power256(4)))] != [Some([])] + Nulls(Power256(4))
  {
    hide Power256, BigEndian, Zeros, Nulls;
    var n := Power256(4);
    var long: Row, wide := [Some(Zeros(n))], [Some([])] + Nulls(n);
    NullsEncode(n);
    BigEndianWraps(4);
    assert long[1..] == [] && wide[1..] == Nulls(n);
    assert EncodeRow(long) == EncodeCell(long[0]) + EncodeRow([]);
    assert EncodeRow(wide) == EncodeCell(wide[0]) + Zeros(n);
    assert |wide| == n + 1 && |long| == 1;
  }

  // ----- hashing -----

  lemma {:induction false} EncodeAppend(row: Row, cell: Option<seq<byte>>)
    ensures EncodeRow(row + [cell]) == EncodeRow(row) + EncodeCell(cell)
    decreases |row|
  {
    hide EncodeCell;
    if |row| == 0 {
      assert row + [cell] == [cell];
      assert [cell][1..] == [];
    } else {
      assert (row + [cell])[1..] == row[1..] + [cell];
      EncodeAppend(row[1..], cell);
    }
  }

  lemma EncodeNothing()
    ensures EncodeRow([]) == []
  {
  }

  /** verify.rs:15-28, over any 64-bit hash. */
  method HashRow(hash: seq<byte> -> u64, cells: Row) returns (h: u64)
    ensures h == hash(EncodeRow(cells))
  {
    hide EncodeRow, BigEndian;
    var buf: seq<byte> := [];
    EncodeNothing();
    for i := 0 to |cells|
      invariant buf == EncodeRow(cells[..i])
    {
      EncodeAppend(cells[..i], cells[i]);
      assert cells[..i + 1] == cells[..i] + [cells[i]];
      match cells[i] {
        case None =>
          buf := buf + [0];
        case Some(bytes) =>
          ghost var before := buf;
          buf := buf + [1];
          buf := buf + BigEndian(|bytes|, 4);
          buf := buf + bytes;
          assert buf == before + EncodeCell(cells[i]);
      }
    }
    assert cells[..|cells|] == cells;
    h := hash(buf);
  }

  function HashRows(hash: seq<byte> -> u64, rows: seq<Row>): (hs: seq<u64>)
    ensures |hs| == |rows|
  {
    seq(|rows|, i requires 0 <= i < |rows| => hash(EncodeRow(rows[i])))
  }

  // ----- comparing two tables -----

  datatype TableVerification = TableVerification(sourceRows: nat, targetRows: nat, mismatched: nat, passed: bool)

  function Min(a: nat, b: nat): nat {
    if a <= b then a else b
  }

  /** Positions below n at which the two sequences differ. */
  function Differences<T(==)>(a: seq<T>, b: seq<T>, n: nat): nat
    requires n <= |a| && n <= |b|
  {
    if n == 0 then 0 else Differences(a, b, n - 1) + (if a[n - 1] != b[n - 1] then 1 else 0)
  }

  /** verify.rs:47-59 */
  function VerifyTable(source: seq<u64>, target: seq<u64>): TableVerification {
    var n := Min(|source|, |target|);
    var extra := if |source| >= |target| then |source| - |target| else |target| - |source|;
    var mismatched := Differences(source, target, n) + extra;
    TableVerification(|source|, |target|, mismatched, mismatched == 0)
  }

  /** The hash tells apart the rows of the two tables that stand at the same position. */
  predicate NoCollision(hash: seq<byte> -> u64, source: seq<Row>, target: seq<Row>) {
    forall i :: 0 <= i < Min(|source|, |target|) ==>
      (hash(EncodeRow(source[i])) == hash(EncodeRow(target[i])) ==> EncodeRow(source[i]) == EncodeRow(target[i]))
  }

  lemma {:induction false} DifferencesAgree(hash: seq<byte> -> u64, source: seq<Row>, target: seq<Row>, n: nat)
    requires n <= |source| && n <= |target| && NoCollision(hash, source, target)
    requires forall i :: 0 <= i < |source| ==> Small(source[i])
    requires forall i :: 0 <= i < |target| ==> Small(target[i])
    ensures Differences(HashRows(hash, source), HashRows(hash, target), n) == Differences(source, target, n)
  {
    hide EncodeRow, Small;
    if n > 0 {
      DifferencesAgree(hash, source, target, n - 1);
      if hash(EncodeRow(source[n - 1])) == hash(EncodeRow(target[n - 1])) {
        EncodingInjective(source[n - 1], target[n - 1]);
      }
    }
  }

  lemma {:induction false} NoDifferences<T>(a: seq<T>, b: seq<T>, n: nat)
    requires n <= |a| && n <= |b|
    ensures Differences(a, b, n) == 0 <==> a[..n] == b[..n]
  {
    if n > 0 {
      NoDifferences(a, b, n - 1);
      assert a[..n] == a[..n - 1] + [a[n - 1]] && b[..n] == b[..n - 1] + [b[n - 1]];
    }
  }

  /** The verifier passes exactly when the row sequences are equal, and otherwise counts the
      positions that differ plus the difference in length. */
  lemma VerificationExact(hash: seq<byte> -> u64, source: seq<Row>, target: seq<Row>)
    requires NoCollision(hash, source, target)
    requires forall i :: 0 <= i < |source| ==> Small(source[i])
    requires forall i :: 0 <= i < |target| ==> Small(target[i])
    ensures var v := VerifyTable(HashRows(hash, source), HashRows(hash, target));
            && (v.passed <==> source == target)
            && v.mismatched == Differences(source, target, Min(|source|, |target|))
                               + (if |source| >= |target| then |source| - |target| else |target| - |source|)
  {
    var n := Min(|source|, |target|);
    DifferencesAgree(hash, source, target, n);
    NoDifferences(source, target, n);
    hide Differences;
    if |source| == |target| {
      assert source[..n] == source && target[..n] == target;
    }
  }
}
