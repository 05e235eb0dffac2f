/**
 * `DeprecatedConceptMap`, the reader of the legacy flat mapping table: the two lookup
 * tables it derives from its loaded mappings, keyed by the stripped code string and
 * filtered to the accepted relationship types.
 */
module DeprecatedMaps {
  import opened Codes

  /** The characters Python's `str.strip()` removes: those `str.isspace` accepts. */
  predicate IsSpace(c: char) {
    || ('\U{9}' <= c <= '\U{D}')
    || ('\U{1C}' <= c <= '\U{20}')
    || c == '\U{85}' || c == '\U{A0}' || c == '\U{1680}'
    || ('\U{2000}' <= c <= '\U{200A}')
    || c == '\U{2028}' || c == '\U{2029}' || c == '\U{202F}' || c == '\U{205F}' || c == '\U{3000}'
  }

  /** `s` with its leading whitespace removed. */
  function TrimStart(s: string): (r: string)
    ensures |r| <= |s| && r == s[|s| - |r|..]
    ensures forall i :: 0 <= i < |s| - |r| ==> IsSpace(s[i])
    ensures r != [] ==> !IsSpace(r[0])
  {
    if s != [] && IsSpace(s[0]) then TrimStart(s[1..]) else s
  }

  /** `s` with its trailing whitespace removed. */
  function TrimEnd(s: string): (r: string)
    ensures |r| <= |s| && r == s[..|r|]
    ensures forall i :: |r| <= i < |s| ==> IsSpace(s[i])
    ensures r != [] ==> !IsSpace(r[|r| - 1])
  {
    if s != [] && IsSpace(s[|s| - 1]) then TrimEnd(s[..|s| - 1]) else s
  }

  /** `s.strip()`: `s` without its leading and trailing whitespace. */
  function Strip(s: string): (r: string)
    ensures |r| <= |s|
    ensures r != [] ==> !IsSpace(r[0]) && !IsSpace(r[|r| - 1])
  {
    TrimEnd(TrimStart(s))
  }

  /**
   * What `strip` removes is whitespace, from the two ends only: the result is a
   * contiguous slice of `s` and everything outside it is whitespace.
   */
  lemma StripIsSlice(s: string)
    ensures exists lo, hi ::
      && 0 <= lo <= hi <= |s| && Strip(s) == s[lo..hi]
      && (forall i :: 0 <= i < lo ==> IsSpace(s[i]))
      && (forall i :: hi <= i < |s| ==> IsSpace(s[i]))
  {
    var t := TrimStart(s);
    var r := TrimEnd(t);
    var lo, hi := |s| - |t|, |s| - |t| + |r|;
    assert r == s[lo..hi] by {
      assert t == s[lo..];
      assert r == t[..|r|];
    }
    assert forall i :: hi <= i < |s| ==> IsSpace(s[i]) by {
      forall i | hi <= i < |s| ensures IsSpace(s[i]) {
        assert s[i] == t[i - lo];
      }
    }
    assert forall i :: 0 <= i < lo ==> IsSpace(s[i]);
    assert Strip(s) == s[lo..hi];
  }

  /** A row of the legacy map table, with the columns the reader uses. */
  datatype LegacyRow = LegacyRow(
    sourceTerminologyCodeSystem: string,
    sourceTerminologyRelease: string,
    sourceConceptCode: string,
    sourceConceptDisplay: string,
    targetTerminologyCodeSystem: string,
    targetTerminologyRelease: string,
    targetConceptCode: string,
    targetConceptDisplay: string,
    relationshipCode: string)

  /** The tuple `(source Code, target Code, relationship code)` kept per legacy row. */
  datatype LegacyMapping = LegacyMapping(source: Code, target: Code, relationshipCode: string)

  function RowToLegacyMapping(row: LegacyRow): LegacyMapping {
    LegacyMapping(
      Code(row.sourceTerminologyCodeSystem, row.sourceTerminologyRelease, row.sourceConceptCode, row.sourceConceptDisplay),
      Code(row.targetTerminologyCodeSystem, row.targetTerminologyRelease, row.targetConceptCode, row.targetConceptDisplay),
      row.relationshipCode)
  }

  function LegacyMappings(rows: seq<LegacyRow>): (ms: seq<LegacyMapping>)
    ensures |ms| == |rows|
    ensures forall i :: 0 <= i < |rows| ==> ms[i] == RowToLegacyMapping(rows[i])
  {
    if rows == [] then [] else LegacyMappings(rows[..|rows| - 1]) + [RowToLegacyMapping(rows[|rows| - 1])]
  }

  /** Which side of a mapping gives the key of a lookup table; the other gives the value. */
  datatype Side = SourceSide | TargetSide

  function KeyOf(m: LegacyMapping, side: Side): string {
    match side
    case SourceSide => Strip(m.source.code)
    case TargetSide => Strip(m.target.code)
  }

  function ValueOf(m: LegacyMapping, side: Side): Code {
    match side
    case SourceSide => m.target
    case TargetSide => m.source
  }

  /** The values of the accepted mappings whose key is `k`, in list order. */
  function ValuesFor(ms: seq<LegacyMapping>, types: seq<string>, side: Side, k: string): seq<Code> {
    if ms == [] then []
    else
      var m := ms[|ms| - 1];
      ValuesFor(ms[..|ms| - 1], types, side, k)
        + if m.relationshipCode in types && KeyOf(m, side) == k then [ValueOf(m, side)] else []
  }

  /**
   * The table the loop of `source_code_to_target_map` (side SourceSide) or of
   * `target_code_to_source_map` (side TargetSide) builds after visiting `ms`. A key is
   * present exactly when some accepted mapping has it, and its list holds the values of
   * those mappings in list order, so it is never empty.
   */
  function Table(ms: seq<LegacyMapping>, types: seq<string>, side: Side): (r: map<string, seq<Code>>)
    ensures forall k :: k in r <==> ValuesFor(ms, types, side, k) != []
    ensures forall k :: k in r ==> r[k] == ValuesFor(ms, types, side, k)
  {
    if ms == [] then map[]
    else
      var t := Table(ms[..|ms| - 1], types, side);
      var m := ms[|ms| - 1];
      if m.relationshipCode !in types then t
      else
        var code := KeyOf(m, side);
        if code in t then t[code := t[code] + [ValueOf(m, side)]] else t[code := [ValueOf(m, side)]]
  }

  /**
   * The key order of a table, as a Python dictionary keeps it: each key at the first
   * accepted mapping that has it, in list order.
   */
  function TableKeys(ms: seq<LegacyMapping>, types: seq<string>, side: Side): (r: seq<string>)
    ensures forall i, j :: 0 <= i < j < |r| ==> r[i] != r[j]
    ensures forall k :: k in r <==> k in Table(ms, types, side)
  {
    if ms == [] then []
    else
      var p := TableKeys(ms[..|ms| - 1], types, side);
      var m := ms[|ms| - 1];
      if m.relationshipCode !in types || KeyOf(m, side) in p then p else p + [KeyOf(m, side)]
  }

  /** Keys keep their places: the keys of the first `n` mappings come first, in the same order. */
  lemma {:induction false} TableKeysPrefix(ms: seq<LegacyMapping>, types: seq<string>, side: Side, n: nat)
    requires n <= |ms|
    ensures TableKeys(ms[..n], types, side) <= TableKeys(ms, types, side)
  {
    if n < |ms| {
      TableKeysPrefix(ms[..|ms| - 1], types, side, n);
      assert ms[..|ms| - 1][..n] == ms[..n];
    } else {
      assert ms[..n] == ms;
    }
  }

  /** Only accepted mappings contribute to a table: each key comes from one of them. */
  lemma {:induction false} TableKeysFromAccepted(ms: seq<LegacyMapping>, types: seq<string>, side: Side, k: string)
    ensures k in Table(ms, types, side) ==>
      exists i :: 0 <= i < |ms| && ms[i].relationshipCode in types && KeyOf(ms[i], side) == k
  {
    if k in Table(ms, types, side) {
      ValuesForWitness(ms, types, side, k);
    }
  }

  lemma {:induction false} ValuesForWitness(ms: seq<LegacyMapping>, types: seq<string>, side: Side, k: string)
    requires ValuesFor(ms, types, side, k) != []
    ensures exists i :: 0 <= i < |ms| && ms[i].relationshipCode in types && KeyOf(ms[i], side) == k
  {
    var p, m := ms[..|ms| - 1], ms[|ms| - 1];
    if m.relationshipCode in types && KeyOf(m, side) == k {
      assert ms[|ms| - 1] == m;
    } else {
      ValuesForWitness(p, types, side, k);
      var i :| 0 <= i < |p| && p[i].relationshipCode in types && KeyOf(p[i], side) == k;
      assert ms[i] == p[i];
    }
  }

  lemma {:induction false} ValuesMirrored(ms: seq<LegacyMapping>, types: seq<string>, k: string)
    ensures ValuesFor(ms, types, TargetSide, k) == ValuesFor(Swapped(ms), types, SourceSide, k)
  {
    if ms != [] {
      ValuesMirrored(ms[..|ms| - 1], types, k);
      assert Swapped(ms)[..|ms| - 1] == Swapped(ms[..|ms| - 1]);
    }
  }

  lemma {:induction false} TableKeysMirrored(ms: seq<LegacyMapping>, types: seq<string>)
    ensures TableKeys(ms, types, TargetSide) == TableKeys(Swapped(ms), types, SourceSide)
  {
    if ms != [] {
      TableKeysMirrored(ms[..|ms| - 1], types);
      assert Swapped(ms)[..|ms| - 1] == Swapped(ms[..|ms| - 1]);
    }
  }

  /**
   * `target_code_to_source_map` is `source_code_to_target_map` of the mappings with
   * source and target exchanged.
   */
  lemma TablesAreMirrored(ms: seq<LegacyMapping>, types: seq<string>)
    ensures Table(ms, types, TargetSide) == Table(Swapped(ms), types, SourceSide)
    ensures TableKeys(ms, types, TargetSide) == TableKeys(Swapped(ms), types, SourceSide)
  {
    TableKeysMirrored(ms, types);
    forall k ensures ValuesFor(ms, types, TargetSide, k) == ValuesFor(Swapped(ms), types, SourceSide, k) {
      ValuesMirrored(ms, types, k);
    }
  }

  /** Every mapping with its source and target exchanged. */
  function Swapped(ms: seq<LegacyMapping>): (r: seq<LegacyMapping>)
    ensures |r| == |ms|
    ensures forall i :: 0 <= i < |ms| ==>
      r[i] == LegacyMapping(ms[i].target, ms[i].source, ms[i].relationshipCode)
  {
    if ms == [] then []
    else
      var m := ms[|ms| - 1];
      Swapped(ms[..|ms| - 1]) + [LegacyMapping(m.target, m.source, m.relationshipCode)]
  }

  class DeprecatedConceptMap {
    const uuid: string
    const relationshipTypes: seq<string>
    const conceptMapName: string
    var mappings: seq<LegacyMapping>

    /** `__init__` once the rows of the legacy map table have been fetched. */
    constructor (uuid: string, relationshipTypes: seq<string>, conceptMapName: string, rows: seq<LegacyRow>)
      ensures this.uuid == uuid && this.relationshipTypes == relationshipTypes
      ensures this.conceptMapName == conceptMapName
      ensures mappings == LegacyMappings(rows)
    {
      this.uuid := uuid;
      this.relationshipTypes := relationshipTypes;
      this.conceptMapName := conceptMapName;
      mappings := LegacyMappings(rows);
    }

    /**
     * `source_code_to_target_map`: stripped source code to the target Codes of the accepted
     * mappings, together with the order in which the dictionary holds its keys.
     */
    method SourceCodeToTargetMap() returns (result: map<string, seq<Code>>, keyOrder: seq<string>)
      ensures result == Table(mappings, relationshipTypes, SourceSide)
      ensures keyOrder == TableKeys(mappings, relationshipTypes, SourceSide)
    {
      result, keyOrder := map[], [];
      for i := 0 to |mappings|
        invariant result == Table(mappings[..i], relationshipTypes, SourceSide)
        invariant keyOrder == TableKeys(mappings[..i], relationshipTypes, SourceSide)
      {
        assert mappings[..i + 1][..i] == mappings[..i];
        var item := mappings[i];
        if item.relationshipCode !in relationshipTypes {
          continue;
        }
        var code := Strip(item.source.code);
        var mappedCodeObject := item.target;
        if code !in result {
          result := result[code := [mappedCodeObject]];
          keyOrder := keyOrder + [code];
        } else {
          result := result[code := result[code] + [mappedCodeObject]];
        }
      }
      assert mappings[..|mappings|] == mappings;
    }

    /**
     * `target_code_to_source_map`: stripped target code to the source Codes of the accepted
     * mappings, together with the order in which the dictionary holds its keys.
     */
    method TargetCodeToSourceMap() returns (result: map<string, seq<Code>>, keyOrder: seq<string>)
      ensures result == Table(mappings, relationshipTypes, TargetSide)
      ensures keyOrder == TableKeys(mappings, relationshipTypes, TargetSide)
    {
      result, keyOrder := map[], [];
      for i := 0 to |mappings|
        invariant result == Table(mappings[..i], relationshipTypes, TargetSide)
        invariant keyOrder == TableKeys(mappings[..i], relationshipTypes, TargetSide)
      {
        assert mappings[..i + 1][..i] == mappings[..i];
        var item := mappings[i];
        if item.relationshipCode !in relationshipTypes {
          continue;
        }
        var code := Strip(item.target.code);
        var mappedCodeObject := item.source;
        if code !in result {
          result := result[code := [mappedCodeObject]];
          keyOrder := keyOrder + [code];
        } else {
          result := result[code := result[code] + [mappedCodeObject]];
        }
      }
      assert mappings[..|mappings|] == mappings;
    }
  }
}
