/** The two exported tables (append_exports and export_tables of src/routing_state.cpp). */
module Export {
  import opened Base
  import opened Text
  import opened Ordering
  import opened Prefix

  /** One line of the ASN table: an origin and the prefixes it originates. */
  datatype AsnRow = AsnRow(asn: uint32, prefixes: seq<string>)

  lemma StringsTotal()
    ensures TotalOrder(StrLe)
  {
    forall a, b
      ensures StrLe(a, b) || StrLe(b, a)
      ensures StrLe(a, b) && StrLe(b, a) ==> a == b
    {
      StrLeTotal(a, b);
    }
    forall a, b, c | StrLe(a, b) && StrLe(b, c) ensures StrLe(a, c) {
      StrLeTransitive(a, b, c);
    }
  }

  /** A row holds a prefix of the table with its origin. */
  ghost predicate RowOf(c: Inet6, table: map<BinaryPrefix, uint32>, row: (string, uint32)) {
    exists p :: p in table && ToString(c, p) == row.0 && table[p] == row.1
  }

  /** The per-ASN lists hold exactly the rows written so far, once each. */
  ghost predicate Grouped(rows: seq<(string, uint32)>, asnMap: map<uint32, seq<string>>) {
    && (forall asn :: asn in asnMap ==> asnMap[asn] != [] && NoDuplicates(asnMap[asn]))
    && (forall asn, text :: asn in asnMap && text in asnMap[asn] ==> (text, asn) in rows)
    && (forall row :: row in rows ==> row.1 in asnMap && row.0 in asnMap[row.1])
  }

  ghost predicate DistinctTexts(rows: seq<(string, uint32)>) {
    forall i, j :: 0 <= i < j < |rows| ==> rows[i].0 != rows[j].0
  }

  lemma GroupOneMore(rows: seq<(string, uint32)>, asnMap: map<uint32, seq<string>>, text: string, asn: uint32)
    requires Grouped(rows, asnMap) && forall row :: row in rows ==> row.0 != text
    ensures var held := if asn in asnMap then asnMap[asn] else [];
      Grouped(rows + [(text, asn)], asnMap[asn := held + [text]])
  {
    var held := if asn in asnMap then asnMap[asn] else [];
    assert forall t :: t in held ==> (t, asn) in rows;
  }

  method AppendExports<P(==)>(c: Inet6, aggregated: map<P, uint32>, tag: P -> BinaryPrefix,
                              rows: seq<(string, uint32)>, asnMap: map<uint32, seq<string>>)
    returns (rows': seq<(string, uint32)>, asnMap': map<uint32, seq<string>>)
    requires Grouped(rows, asnMap) && DistinctTexts(rows)
    requires forall p, q :: p in aggregated && q in aggregated && ToString(c, tag(p)) == ToString(c, tag(q)) ==> p == q
    requires forall p, row :: p in aggregated && row in rows ==> row.0 != ToString(c, tag(p))
    ensures Grouped(rows', asnMap') && DistinctTexts(rows')
    ensures forall row :: row in rows' <==>
      row in rows || exists p :: p in aggregated && row == (ToString(c, tag(p)), aggregated[p])
    ensures |rows'| == |rows| + |aggregated|
  {
    rows', asnMap' := rows, asnMap;
    var pending := aggregated.Keys;
    while pending != {}
      invariant pending <= aggregated.Keys && Grouped(rows', asnMap') && DistinctTexts(rows')
      invariant forall p, row :: p in pending && row in rows' ==> row.0 != ToString(c, tag(p))
      invariant forall row :: row in rows' <==>
        row in rows || exists p :: p in aggregated && p !in pending && row == (ToString(c, tag(p)), aggregated[p])
      invariant |rows'| == |rows| + |aggregated| - |pending|
      decreases pending
    {
      var prefix :| prefix in pending;
      var prefixText, asn := ToString(c, tag(prefix)), aggregated[prefix];
      GroupOneMore(rows', asnMap', prefixText, asn);
      asnMap' := asnMap'[asn := (if asn in asnMap' then asnMap'[asn] else []) + [prefixText]];
      rows' := rows' + [(prefixText, asn)];
      pending := pending - {prefix};
    }
  }

  // ----- The ASN table -----

  function RowPairs(row: AsnRow): (pairs: seq<(string, uint32)>)
    ensures |pairs| == |row.prefixes|
    ensures forall i :: 0 <= i < |pairs| ==> pairs[i] == (row.prefixes[i], row.asn)
  {
    seq(|row.prefixes|, i requires 0 <= i < |row.prefixes| => (row.prefixes[i], row.asn))
  }

  /** The ASN table read backwards: every (prefix, origin) it mentions. */
  function Inverted(asnRows: seq<AsnRow>): seq<(string, uint32)> {
    if asnRows == [] then [] else RowPairs(asnRows[0]) + Inverted(asnRows[1..])
  }

  function TotalLength(asnRows: seq<AsnRow>): nat {
    if asnRows == [] then 0 else |asnRows[0].prefixes| + TotalLength(asnRows[1..])
  }

  ghost predicate WellFormedRows(asnRows: seq<AsnRow>) {
    && (forall i, j :: 0 <= i < j < |asnRows| ==> asnRows[i].asn != asnRows[j].asn)
    && (forall row :: row in asnRows ==>
      row.prefixes != [] && SortedBy(StrLe, row.prefixes) && NoDuplicates(row.prefixes))
  }

  lemma {:induction false} InvertedMembers(asnRows: seq<AsnRow>, pair: (string, uint32))
    ensures pair in Inverted(asnRows) <==> exists row :: row in asnRows && row.asn == pair.1 && pair.0 in row.prefixes
    ensures |Inverted(asnRows)| == TotalLength(asnRows)
  {
    if asnRows == [] {
    } else {
      var first := asnRows[0];
      InvertedMembers(asnRows[1..], pair);
      assert asnRows == [first] + asnRows[1..];
      if pair in RowPairs(first) {
        var i :| 0 <= i < |RowPairs(first)| && RowPairs(first)[i] == pair;
        assert first in asnRows && pair.0 in first.prefixes;
      }
      if first.asn == pair.1 && pair.0 in first.prefixes {
        var i :| 0 <= i < |first.prefixes| && first.prefixes[i] == pair.0;
        assert RowPairs(first)[i] == pair;
      }
      assert forall row :: row in asnRows <==> row == first || row in asnRows[1..];
    }
  }

  lemma {:induction false} InvertedDistinct(asnRows: seq<AsnRow>)
    requires WellFormedRows(asnRows)
    ensures NoDuplicates(Inverted(asnRows))
  {
    if asnRows == [] {
    } else {
      var first, rest := asnRows[0], asnRows[1..];
      assert forall row :: row in rest ==> row in asnRows;
      InvertedDistinct(rest);
      forall pair | pair in Inverted(rest) ensures pair !in RowPairs(first) {
        InvertedMembers(rest, pair);
        var row :| row in rest && row.asn == pair.1 && pair.0 in row.prefixes;
        var j :| 0 <= j < |rest| && rest[j] == row;
        assert asnRows[j + 1] == row;
      }
      assert first in asnRows;
      assert NoDuplicates(RowPairs(first));
      AppendDistinct(RowPairs(first), Inverted(rest));
    }
  }

  lemma SortKeepsMembers(prefixes: seq<string>)
    requires NoDuplicates(prefixes)
    ensures TotalOrder(StrLe)
    ensures var sorted := Sort(StrLe, prefixes);
      SortedBy(StrLe, sorted) && NoDuplicates(sorted) && |sorted| == |prefixes| && forall t :: t in sorted <==> t in prefixes
  {
    StringsTotal();
    var sorted := Sort(StrLe, prefixes);
    var all := set t | t in prefixes;
    ListsMultiset(prefixes, all);
    MultisetLists(sorted, all);
    SameMembers(sorted, prefixes);
  }

  /** The rows are those of the ASNs no longer pending, each with its texts. */
  ghost predicate RowsSoFar(asnMap: map<uint32, seq<string>>, pending: set<uint32>, asnRows: seq<AsnRow>) {
    && WellFormedRows(asnRows)
    && (forall row :: row in asnRows ==>
      row.asn in asnMap && row.asn !in pending && forall t :: t in row.prefixes <==> t in asnMap[row.asn])
    && (forall asn :: asn in asnMap && asn !in pending ==> exists row :: row in asnRows && row.asn == asn)
  }

  lemma OneMoreRow(rows: seq<(string, uint32)>, asnMap: map<uint32, seq<string>>, pending: set<uint32>,
                   asnRows: seq<AsnRow>, asn: uint32)
    requires Grouped(rows, asnMap) && RowsSoFar(asnMap, pending, asnRows) && asn in pending && asn in asnMap
    ensures TotalOrder(StrLe)
    ensures RowsSoFar(asnMap, pending - {asn}, asnRows + [AsnRow(asn, Sort(StrLe, asnMap[asn]))])
  {
    SortKeepsMembers(asnMap[asn]);
    var row := AsnRow(asn, Sort(StrLe, asnMap[asn]));
    assert forall r :: r in asnRows + [row] <==> r in asnRows || r == row;
    assert forall i :: 0 <= i < |asnRows| ==> asnRows[i] in asnRows;
  }

  lemma AllRows(rows: seq<(string, uint32)>, asnMap: map<uint32, seq<string>>, asnRows: seq<AsnRow>,
                pair: (string, uint32))
    requires Grouped(rows, asnMap) && RowsSoFar(asnMap, {}, asnRows)
    ensures pair in Inverted(asnRows) <==> pair in rows
  {
    InvertedMembers(asnRows, pair);
  }

  /** One sorted row per ASN, in whatever order the hash map delivers the ASNs. */
  method AsnTable(asnMap: map<uint32, seq<string>>, ghost rows: seq<(string, uint32)>) returns (asnRows: seq<AsnRow>)
    requires Grouped(rows, asnMap)
    ensures WellFormedRows(asnRows)
    ensures forall pair :: pair in Inverted(asnRows) <==> pair in rows
  {
    asnRows := [];
    var pending := asnMap.Keys;
    while pending != {}
      invariant pending <= asnMap.Keys && RowsSoFar(asnMap, pending, asnRows)
      decreases pending
    {
      var asn :| asn in pending;
      OneMoreRow(rows, asnMap, pending, asnRows, asn);
      asnRows := asnRows + [AsnRow(asn, Sort(StrLe, asnMap[asn]))];
      pending := pending - {asn};
    }
    forall pair: (string, uint32) ensures pair in Inverted(asnRows) <==> pair in rows {
      AllRows(rows, asnMap, asnRows, pair);
    }
  }

  /** Listing the same distinct pairs, the two tables are inverse to each other. */
  lemma TablesInverse(rows: seq<(string, uint32)>, asnRows: seq<AsnRow>)
    requires DistinctTexts(rows) && WellFormedRows(asnRows)
    requires forall pair :: pair in Inverted(asnRows) <==> pair in rows
    ensures multiset(Inverted(asnRows)) == multiset(rows)
    ensures TotalLength(asnRows) == |rows|
  {
    InvertedDistinct(asnRows);
    assert NoDuplicates(rows);
    var all := set pair | pair in rows;
    assert (set pair | pair in Inverted(asnRows)) == all;
    ListsMultiset(rows, all);
    ListsMultiset(Inverted(asnRows), all);
    InvertedMembers(asnRows, ("", 0));
  }
}
