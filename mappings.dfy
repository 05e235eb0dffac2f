/**
 * The mapping index of a concept-map version: `ConceptMapVersion.mappings`, a Python
 * dictionary from source Code to the list of Mappings loaded for it, and the row loop
 * of `load_mappings` that fills it.
 */
module Mappings {
  import opened Codes

  /** A source code, its relationship (equivalence) code and a target code. */
  datatype Mapping = Mapping(sourceCode: Code, equivalence: string, targetCode: Code)

  /** One already-joined result row of the mapping query of `load_mappings`. */
  datatype MappingRow = MappingRow(
    sourceCode: string,
    sourceDisplay: string,
    sourceVersion: string,
    sourceFhirUri: string,
    relationshipCode: string,
    targetConceptCode: string,
    targetConceptDisplay: string,
    targetVersion: string,
    targetFhirUri: string)

  /** The source Code a row stands for: its resolved URI and version, then code and display. */
  function RowSource(row: MappingRow): Code {
    Code(row.sourceFhirUri, row.sourceVersion, row.sourceCode, row.sourceDisplay)
  }

  /** The target Code a row stands for. */
  function RowTarget(row: MappingRow): Code {
    Code(row.targetFhirUri, row.targetVersion, row.targetConceptCode, row.targetConceptDisplay)
  }

  /** The Mapping a row stands for. */
  function RowMapping(row: MappingRow): Mapping {
    Mapping(RowSource(row), row.relationshipCode, RowTarget(row))
  }

  /** The Mappings of a sequence of rows, in row order. */
  function RowMappings(rows: seq<MappingRow>): (ms: seq<Mapping>)
    ensures |ms| == |rows|
    ensures forall i :: 0 <= i < |rows| ==> ms[i] == RowMapping(rows[i])
  {
    if rows == [] then [] else RowMappings(rows[..|rows| - 1]) + [RowMapping(rows[|rows| - 1])]
  }

  /** The Mappings of the rows whose source Code is `k`, in row order. */
  function RowMappingsFor(rows: seq<MappingRow>, k: Code): seq<Mapping> {
    if rows == [] then []
    else
      var last := rows[|rows| - 1];
      RowMappingsFor(rows[..|rows| - 1], k) + if RowSource(last) == k then [RowMapping(last)] else []
  }

  /** The source Codes occurring among rows. */
  function RowSources(rows: seq<MappingRow>): set<Code> {
    set row | row in rows :: RowSource(row)
  }

  /**
   * A Python dictionary from source Code to a list of Mappings: its keys in insertion
   * order and the key-to-list map.
   */
  datatype MappingIndex = MappingIndex(keys: seq<Code>, slots: map<Code, seq<Mapping>>)

  /** The empty dictionary `{}`. */
  const Empty := MappingIndex([], map[])

  /** The key order lists every key of the map exactly once. */
  predicate WellFormed(idx: MappingIndex) {
    && (forall i, j :: 0 <= i < j < |idx.keys| ==> idx.keys[i] != idx.keys[j])
    && (forall k :: k in idx.keys ==> k in idx.slots)
    && (forall k :: k in idx.slots ==> k in idx.keys)
  }

  /** Every Mapping is stored under its own source Code. */
  predicate KeyedBySource(idx: MappingIndex) {
    forall k, m :: k in idx.slots && m in idx.slots[k] ==> m.sourceCode == k
  }

  /**
   * The keys that rows add to a dictionary already holding `known`: the source Code of
   * each row that is neither known nor seen in an earlier row, in row order.
   */
  function NewKeys(known: seq<Code>, rows: seq<MappingRow>): (r: seq<Code>)
    ensures forall i, j :: 0 <= i < j < |r| ==> r[i] != r[j]
    ensures forall k :: k in r <==> k in RowSources(rows) && k !in known
  {
    if rows == [] then []
    else
      var prefix, k := rows[..|rows| - 1], RowSource(rows[|rows| - 1]);
      assert RowSources(rows) == RowSources(prefix) + {k} by {
        assert rows == prefix + [rows[|rows| - 1]];
      }
      var p := NewKeys(known, prefix);
      p + if k in known || k in p then [] else [k]
  }

  /**
   * Keys are added in the order their Codes first occur: the keys the first `n` rows
   * add come before those of the later rows.
   */
  lemma {:induction false} NewKeysPrefix(known: seq<Code>, rows: seq<MappingRow>, n: nat)
    requires n <= |rows|
    ensures NewKeys(known, rows[..n]) <= NewKeys(known, rows)
  {
    if n < |rows| {
      NewKeysPrefix(known, rows[..|rows| - 1], n);
      assert rows[..|rows| - 1][..n] == rows[..n];
    } else {
      assert rows[..n] == rows;
    }
  }

  /** The list stored under `k`, or the empty list when `k` is not a key. */
  function Slot(idx: MappingIndex, k: Code): seq<Mapping> {
    if k in idx.slots then idx.slots[k] else []
  }

  /**
   * One pass of the row loop: append the mapping to the list under its source Code,
   * creating that list (and the key) on first insertion.
   */
  function Insert(idx: MappingIndex, m: Mapping): (r: MappingIndex)
    ensures WellFormed(idx) ==> WellFormed(r)
    ensures KeyedBySource(idx) ==> KeyedBySource(r)
    ensures forall k :: Slot(r, k) == if k == m.sourceCode then Slot(idx, k) + [m] else Slot(idx, k)
    ensures r.slots.Keys == idx.slots.Keys + {m.sourceCode}
    ensures idx.keys <= r.keys
  {
    var k := m.sourceCode;
    if k in idx.slots then MappingIndex(idx.keys, idx.slots[k := idx.slots[k] + [m]])
    else MappingIndex(idx.keys + [k], idx.slots[k := [m]])
  }

  /** The index after the row loop of `load_mappings` has processed `rows` in order. */
  function InsertRows(idx: MappingIndex, rows: seq<MappingRow>): (r: MappingIndex)
    ensures WellFormed(idx) ==> WellFormed(r)
    ensures KeyedBySource(idx) ==> KeyedBySource(r)
    ensures r.slots.Keys == idx.slots.Keys + RowSources(rows)
    ensures idx.keys <= r.keys
  {
    if rows == [] then idx
    else
      var prefix := rows[..|rows| - 1];
      assert RowSources(rows) == RowSources(prefix) + {RowSource(rows[|rows| - 1])} by {
        assert rows == prefix + [rows[|rows| - 1]];
      }
      Insert(InsertRows(idx, prefix), RowMapping(rows[|rows| - 1]))
  }

  /**
   * Loading only appends: the list under every key is its earlier list followed by
   * the Mappings of the rows with that source Code, in row order. Keys that no row
   * mentions keep their lists unchanged.
   */
  lemma {:induction false} InsertRowsAppends(idx: MappingIndex, rows: seq<MappingRow>, k: Code)
    ensures Slot(InsertRows(idx, rows), k) == Slot(idx, k) + RowMappingsFor(rows, k)
  {
    if rows != [] {
      InsertRowsAppends(idx, rows[..|rows| - 1], k);
    }
  }

  /**
   * The key order after loading: the earlier keys, then each new source Code at its
   * first occurrence among the rows, as a Python dictionary orders its keys.
   */
  lemma {:induction false} InsertRowsKeyOrder(idx: MappingIndex, rows: seq<MappingRow>)
    requires WellFormed(idx)
    ensures InsertRows(idx, rows).keys == idx.keys + NewKeys(idx.keys, rows)
  {
    if rows != [] {
      var prefix, m := rows[..|rows| - 1], RowMapping(rows[|rows| - 1]);
      var before, p := InsertRows(idx, prefix), NewKeys(idx.keys, prefix);
      var added: seq<Code> := if m.sourceCode in idx.keys || m.sourceCode in p then [] else [m.sourceCode];
      InsertRowsKeyOrder(idx, prefix);
      InsertKeys(before, m);
      InsertRowsSnoc(idx, rows);
      NewKeysSnoc(idx.keys, rows);
      assert (m.sourceCode in before.keys) == (m.sourceCode in idx.keys || m.sourceCode in p);
      ConcatAssoc(idx.keys, p, added);
    }
  }

  lemma ConcatAssoc<T>(a: seq<T>, b: seq<T>, c: seq<T>)
    ensures (a + b) + c == a + (b + c)
  {
  }

  lemma InsertRowsSnoc(idx: MappingIndex, rows: seq<MappingRow>)
    requires rows != []
    ensures InsertRows(idx, rows) == Insert(InsertRows(idx, rows[..|rows| - 1]), RowMapping(rows[|rows| - 1]))
  {
  }

  lemma NewKeysSnoc(known: seq<Code>, rows: seq<MappingRow>)
    requires rows != []
    ensures var p, k := NewKeys(known, rows[..|rows| - 1]), RowSource(rows[|rows| - 1]);
      NewKeys(known, rows) == p + if k in known || k in p then [] else [k]
  {
  }

  lemma InsertKeys(idx: MappingIndex, m: Mapping)
    requires WellFormed(idx)
    ensures Insert(idx, m).keys == idx.keys + if m.sourceCode in idx.keys then [] else [m.sourceCode]
  {
  }

  /**
   * Two rows whose source Codes differ only in display become two keys, in row order,
   * because Code equality compares all four fields: loading `a` and then `b` into an
   * empty dictionary leaves both as keys.
   */
  lemma DisplaySplitsKeys(a: MappingRow, b: MappingRow)
    requires a.sourceFhirUri == b.sourceFhirUri && a.sourceVersion == b.sourceVersion
    requires a.sourceCode == b.sourceCode && a.sourceDisplay != b.sourceDisplay
    ensures var keys := Insert(Insert(Empty, RowMapping(a)), RowMapping(b)).keys;
      |keys| == 2 && keys[0] == RowSource(a) && keys[1] == RowSource(b)
  {
    assert RowSource(a) != RowSource(b) by {
      assert RowSource(a).display != RowSource(b).display;
    }
    DistinctSourcesTwoKeys(RowMapping(a), RowMapping(b));
  }

  lemma DistinctSourcesTwoKeys(m1: Mapping, m2: Mapping)
    requires m1.sourceCode != m2.sourceCode
    ensures var keys := Insert(Insert(Empty, m1), m2).keys;
      |keys| == 2 && keys[0] == m1.sourceCode && keys[1] == m2.sourceCode
  {
    var once := Insert(Empty, m1);
    assert WellFormed(Empty);
    InsertKeys(Empty, m1);
    assert once.keys == [m1.sourceCode];
    InsertKeys(once, m2);
  }

  /** The lists of `keys`, concatenated in key order. */
  function Flatten(keys: seq<Code>, slots: map<Code, seq<Mapping>>): seq<Mapping> {
    if keys == [] then []
    else
      var k := keys[|keys| - 1];
      Flatten(keys[..|keys| - 1], slots) + if k in slots then slots[k] else []
  }

  /** Every Mapping of the index, as `for _, ms in d.items(): for m in ms` visits them. */
  function AllMappings(idx: MappingIndex): seq<Mapping> {
    Flatten(idx.keys, idx.slots)
  }

  lemma {:induction false} FlattenUpdateOther(keys: seq<Code>, slots: map<Code, seq<Mapping>>, k: Code, v: seq<Mapping>)
    requires k !in keys
    ensures Flatten(keys, slots[k := v]) == Flatten(keys, slots)
  {
    if keys != [] {
      FlattenUpdateOther(keys[..|keys| - 1], slots, k, v);
    }
  }

  lemma {:induction false} FlattenAppendAt(keys: seq<Code>, slots: map<Code, seq<Mapping>>, k: Code, m: Mapping)
    requires k in slots && k in keys
    requires forall i, j :: 0 <= i < j < |keys| ==> keys[i] != keys[j]
    ensures multiset(Flatten(keys, slots[k := slots[k] + [m]])) == multiset(Flatten(keys, slots)) + multiset{m}
  {
    var prefix, last := keys[..|keys| - 1], keys[|keys| - 1];
    if last == k {
      assert forall i :: 0 <= i < |prefix| ==> prefix[i] == keys[i] != keys[|keys| - 1];
      FlattenUpdateOther(prefix, slots, k, slots[k] + [m]);
    } else {
      assert k in prefix by {
        var i :| 0 <= i < |keys| && keys[i] == k;
        assert i < |keys| - 1;
        assert prefix[i] == k;
      }
      FlattenAppendAt(prefix, slots, k, m);
    }
  }

  /** Inserting one Mapping adds exactly that Mapping to the flattened index. */
  lemma InsertAddsOne(idx: MappingIndex, m: Mapping)
    requires WellFormed(idx)
    ensures multiset(AllMappings(Insert(idx, m))) == multiset(AllMappings(idx)) + multiset{m}
  {
    var k := m.sourceCode;
    if k in idx.slots {
      FlattenAppendAt(idx.keys, idx.slots, k, m);
    } else {
      FlattenUpdateOther(idx.keys, idx.slots, k, [m]);
      assert (idx.keys + [k])[..|idx.keys|] == idx.keys;
    }
  }

  /** Loading rows adds exactly their Mappings to the index: no row is lost or duplicated. */
  lemma {:induction false} InsertRowsAddsRows(idx: MappingIndex, rows: seq<MappingRow>)
    requires WellFormed(idx)
    ensures multiset(AllMappings(InsertRows(idx, rows))) == multiset(AllMappings(idx)) + multiset(RowMappings(rows))
  {
    if rows != [] {
      var prefix, last := rows[..|rows| - 1], rows[|rows| - 1];
      InsertRowsAddsRows(idx, prefix);
      InsertAddsOne(InsertRows(idx, prefix), RowMapping(last));
      assert RowMappings(rows) == RowMappings(prefix) + [RowMapping(last)];
    }
  }

  /** The number of stored Mappings grows by exactly the number of rows loaded. */
  lemma InsertRowsCount(idx: MappingIndex, rows: seq<MappingRow>)
    requires WellFormed(idx)
    ensures |AllMappings(InsertRows(idx, rows))| == |AllMappings(idx)| + |rows|
  {
    InsertRowsAddsRows(idx, rows);
    assert |multiset(AllMappings(InsertRows(idx, rows)))| == |multiset(AllMappings(idx))| + |multiset(RowMappings(rows))|;
  }
}
