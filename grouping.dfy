/**
 * The FHIR ConceptMap `group` structure that `serialize_mappings` builds from the
 * mapping index: one group per (source system, source version, target system,
 * target version) tuple occurring in the index, each holding one element per source
 * Code of its source half and, in each element, the Mappings of its target half.
 */
module Grouping {
  import opened Codes
  import opened Mappings

  /** A group header: (source, sourceVersion, target, targetVersion). */
  datatype GroupKey = GroupKey(source: string, sourceVersion: string, target: string, targetVersion: string)

  /** `{"code", "display", "equivalence", "comment"}` of one target entry. */
  datatype TargetEntry = TargetEntry(code: string, display: string, equivalence: string, comment: Option<string>)

  /** `{"code", "display", "target"}` of one element. */
  datatype Element = Element(code: string, display: string, target: seq<TargetEntry>)

  /** `{"source", "sourceVersion", "target", "targetVersion", "element"}` of one group. */
  datatype Group = Group(source: string, sourceVersion: string, target: string, targetVersion: string, element: seq<Element>)

  function HeaderOf(g: Group): GroupKey {
    GroupKey(g.source, g.sourceVersion, g.target, g.targetVersion)
  }

  /** The headers of a list of groups. */
  function Headers(groups: seq<Group>): set<GroupKey> {
    set g | g in groups :: HeaderOf(g)
  }

  /** The tuple collected for a Mapping stored under key `k`: the key's half, then the target's. */
  function PairOf(k: Code, m: Mapping): GroupKey {
    GroupKey(k.system, k.version, m.targetCode.system, m.targetCode.version)
  }

  /** The 4-tuple of a Mapping, read off its own source and target Codes. */
  function Tuple(m: Mapping): GroupKey {
    GroupKey(m.sourceCode.system, m.sourceCode.version, m.targetCode.system, m.targetCode.version)
  }

  /** The tuples collected from the list stored under `k`. */
  function SlotPairs(k: Code, ms: seq<Mapping>): set<GroupKey> {
    set m | m in ms :: PairOf(k, m)
  }

  lemma SlotPairsSnoc(k: Code, ms: seq<Mapping>, m: Mapping)
    ensures SlotPairs(k, ms + [m]) == SlotPairs(k, ms) + {PairOf(k, m)}
  {
  }

  /** The tuples collected from the lists of `keys`. */
  function Pairs(keys: seq<Code>, slots: map<Code, seq<Mapping>>): set<GroupKey> {
    if keys == [] then {}
    else
      var k := keys[|keys| - 1];
      Pairs(keys[..|keys| - 1], slots) + SlotPairs(k, if k in slots then slots[k] else [])
  }

  /** `source_target_pairs_set` of `serialize_mappings`. */
  function PairSet(idx: MappingIndex): set<GroupKey> {
    Pairs(idx.keys, idx.slots)
  }

  predicate SourceMatches(c: Code, t: GroupKey) {
    c.system == t.source && c.version == t.sourceVersion
  }

  predicate TargetMatches(m: Mapping, t: GroupKey) {
    m.targetCode.system == t.target && m.targetCode.version == t.targetVersion
  }

  /** The Mappings of `ms` whose target half is that of `t`, in list order. */
  function Filtered(ms: seq<Mapping>, t: GroupKey): (r: seq<Mapping>)
    ensures forall m :: m in r <==> m in ms && TargetMatches(m, t)
  {
    if ms == [] then []
    else
      var m := ms[|ms| - 1];
      Filtered(ms[..|ms| - 1], t) + if TargetMatches(m, t) then [m] else []
  }

  /** The target entry of a Mapping: target code and display, equivalence, no comment. */
  function TargetEntryOf(m: Mapping): TargetEntry {
    TargetEntry(m.targetCode.code, m.targetCode.display, m.equivalence, None)
  }

  function TargetEntries(ms: seq<Mapping>): (r: seq<TargetEntry>)
    ensures |r| == |ms|
    ensures forall i :: 0 <= i < |ms| ==> r[i] == TargetEntryOf(ms[i])
  {
    if ms == [] then [] else TargetEntries(ms[..|ms| - 1]) + [TargetEntryOf(ms[|ms| - 1])]
  }

  /** The element a source Code `c` with list `ms` contributes to group `t`. */
  function ElementOf(c: Code, ms: seq<Mapping>, t: GroupKey): Element {
    Element(c.code, c.display, TargetEntries(Filtered(ms, t)))
  }

  /** The elements of group `t`: one per key of its source half, in key order. */
  function Elements(keys: seq<Code>, slots: map<Code, seq<Mapping>>, t: GroupKey): seq<Element> {
    if keys == [] then []
    else
      var c := keys[|keys| - 1];
      Elements(keys[..|keys| - 1], slots, t)
        + if SourceMatches(c, t) then [ElementOf(c, if c in slots then slots[c] else [], t)] else []
  }

  /** The group `serialize_mappings` emits for tuple `t`. */
  function GroupFor(idx: MappingIndex, t: GroupKey): Group {
    Group(t.source, t.sourceVersion, t.target, t.targetVersion, Elements(idx.keys, idx.slots, t))
  }

  /**
   * What `serialize_mappings` may return: the groups of the collected tuples, each
   * once, in any order (Python leaves the iteration order of a set unspecified).
   */
  predicate IsSerialization(idx: MappingIndex, groups: seq<Group>) {
    && (forall i :: 0 <= i < |groups| ==> groups[i] == GroupFor(idx, HeaderOf(groups[i])))
    && (forall i, j :: 0 <= i < j < |groups| ==> HeaderOf(groups[i]) != HeaderOf(groups[j]))
    && Headers(groups) == PairSet(idx)
  }

  // ---------------------------------------------------------------------------
  // Records: one target entry together with everything the output says about it
  // ---------------------------------------------------------------------------

  /** A target entry with its group header and its element's code and display. */
  datatype Record = Record(header: GroupKey, code: string, display: string, entry: TargetEntry)

  /** The record under which a Mapping should appear in the output. */
  function MappingRecord(m: Mapping): Record {
    Record(Tuple(m), m.sourceCode.code, m.sourceCode.display, TargetEntryOf(m))
  }

  function MappingRecords(ms: seq<Mapping>): (r: seq<Record>)
    ensures |r| == |ms|
    ensures forall i :: 0 <= i < |ms| ==> r[i] == MappingRecord(ms[i])
  {
    if ms == [] then [] else MappingRecords(ms[..|ms| - 1]) + [MappingRecord(ms[|ms| - 1])]
  }

  /** The records of the target entries of one element of group `t`. */
  function EntryRecords(t: GroupKey, code: string, display: string, entries: seq<TargetEntry>): seq<Record> {
    if entries == [] then []
    else EntryRecords(t, code, display, entries[..|entries| - 1]) + [Record(t, code, display, entries[|entries| - 1])]
  }

  /** The records of the elements of group `t`, element by element. */
  function ElementRecords(t: GroupKey, es: seq<Element>): seq<Record> {
    if es == [] then []
    else
      var e := es[|es| - 1];
      ElementRecords(t, es[..|es| - 1]) + EntryRecords(t, e.code, e.display, e.target)
  }

  function GroupRecords(g: Group): seq<Record> {
    ElementRecords(HeaderOf(g), g.element)
  }

  /** The records of all groups, group by group. */
  function AllRecords(groups: seq<Group>): seq<Record> {
    if groups == [] then []
    else AllRecords(groups[..|groups| - 1]) + GroupRecords(groups[|groups| - 1])
  }

  /** The records whose header is in `hs`, in order. */
  function Select(rs: seq<Record>, hs: set<GroupKey>): (r: seq<Record>)
    ensures forall x :: x in r ==> x in rs && x.header in hs
  {
    if rs == [] then []
    else
      var x := rs[|rs| - 1];
      Select(rs[..|rs| - 1], hs) + if x.header in hs then [x] else []
  }

  lemma {:induction false} SelectConcat(a: seq<Record>, b: seq<Record>, hs: set<GroupKey>)
    ensures Select(a + b, hs) == Select(a, hs) + Select(b, hs)
  {
    if b == [] {
      assert a + b == a;
    } else {
      var b' := b[..|b| - 1];
      assert (a + b)[..|a + b| - 1] == a + b';
      SelectConcat(a, b', hs);
    }
  }

  lemma {:induction false} SelectSplit(rs: seq<Record>, hs: set<GroupKey>, h: GroupKey)
    requires h !in hs
    ensures multiset(Select(rs, hs + {h})) == multiset(Select(rs, hs)) + multiset(Select(rs, {h}))
  {
    if rs != [] {
      SelectSplit(rs[..|rs| - 1], hs, h);
    }
  }

  lemma {:induction false} SelectAll(rs: seq<Record>, hs: set<GroupKey>)
    requires forall x :: x in rs ==> x.header in hs
    ensures Select(rs, hs) == rs
  {
    if rs != [] {
      SelectAll(rs[..|rs| - 1], hs);
      assert rs == rs[..|rs| - 1] + [rs[|rs| - 1]];
    }
  }

  lemma {:induction false} MappingRecordsConcat(a: seq<Mapping>, b: seq<Mapping>)
    ensures MappingRecords(a + b) == MappingRecords(a) + MappingRecords(b)
  {
  }

  lemma EntryRecordsSnoc(t: GroupKey, code: string, display: string, es: seq<TargetEntry>, e: TargetEntry)
    ensures EntryRecords(t, code, display, es + [e]) == EntryRecords(t, code, display, es) + [Record(t, code, display, e)]
  {
    assert (es + [e])[..|es|] == es;
  }

  lemma SelectSnoc(rs: seq<Record>, x: Record, hs: set<GroupKey>)
    ensures Select(rs + [x], hs) == Select(rs, hs) + if x.header in hs then [x] else []
  {
    assert (rs + [x])[..|rs|] == rs;
  }

  /**
   * The element a source Code of the source half of `t` contributes to group `t`
   * holds, in list order, exactly the records of its Mappings whose tuple is `t`.
   */
  lemma {:induction false} SlotSelection(c: Code, ms: seq<Mapping>, t: GroupKey)
    requires forall m :: m in ms ==> m.sourceCode == c
    requires SourceMatches(c, t)
    ensures EntryRecords(t, c.code, c.display, TargetEntries(Filtered(ms, t))) == Select(MappingRecords(ms), {t})
  {
    if ms != [] {
      var p, m := ms[..|ms| - 1], ms[|ms| - 1];
      SlotSelection(c, p, t);
      assert MappingRecords(ms) == MappingRecords(p) + [MappingRecord(m)];
      SelectSnoc(MappingRecords(p), MappingRecord(m), {t});
      if TargetMatches(m, t) {
        var f := Filtered(p, t);
        assert Filtered(ms, t) == f + [m];
        assert TargetEntries(f + [m]) == TargetEntries(f) + [TargetEntryOf(m)];
        EntryRecordsSnoc(t, c.code, c.display, TargetEntries(f), TargetEntryOf(m));
      } else {
        assert Filtered(ms, t) == Filtered(p, t);
      }
    }
  }

  /** A source Code outside the source half of `t` has no Mapping whose tuple is `t`. */
  lemma {:induction false} SlotSelectionOther(c: Code, ms: seq<Mapping>, t: GroupKey)
    requires forall m :: m in ms ==> m.sourceCode == c
    requires !SourceMatches(c, t)
    ensures Select(MappingRecords(ms), {t}) == []
  {
    if ms != [] {
      var p, m := ms[..|ms| - 1], ms[|ms| - 1];
      SlotSelectionOther(c, p, t);
      assert MappingRecords(ms) == MappingRecords(p) + [MappingRecord(m)];
      SelectSnoc(MappingRecords(p), MappingRecord(m), {t});
    }
  }

  lemma {:induction false} ElementRecordsConcat(t: GroupKey, a: seq<Element>, b: seq<Element>)
    ensures ElementRecords(t, a + b) == ElementRecords(t, a) + ElementRecords(t, b)
  {
    if b == [] {
      assert a + b == a;
    } else {
      var b' := b[..|b| - 1];
      assert (a + b)[..|a + b| - 1] == a + b';
      ElementRecordsConcat(t, a, b');
    }
  }

  lemma {:induction false} ElementsSelection(keys: seq<Code>, slots: map<Code, seq<Mapping>>, t: GroupKey)
    requires forall k, m :: k in slots && m in slots[k] ==> m.sourceCode == k
    ensures ElementRecords(t, Elements(keys, slots, t)) == Select(MappingRecords(Flatten(keys, slots)), {t})
  {
    if keys != [] {
      var p, c := keys[..|keys| - 1], keys[|keys| - 1];
      var ms := if c in slots then slots[c] else [];
      ElementsSelection(p, slots, t);
      MappingRecordsConcat(Flatten(p, slots), ms);
      SelectConcat(MappingRecords(Flatten(p, slots)), MappingRecords(ms), {t});
      var tail := if SourceMatches(c, t) then [ElementOf(c, ms, t)] else [];
      ElementRecordsConcat(t, Elements(p, slots, t), tail);
      if SourceMatches(c, t) {
        SlotSelection(c, ms, t);
        assert tail[..0] == [];
        assert ElementRecords(t, tail) == EntryRecords(t, c.code, c.display, ElementOf(c, ms, t).target);
      } else {
        SlotSelectionOther(c, ms, t);
      }
    }
  }

  /**
   * Soundness and completeness of one group: its target entries are, in order,
   * exactly those of the indexed Mappings whose tuple is the group's header, each
   * under the element of that Mapping's source code.
   */
  lemma GroupIsSelection(idx: MappingIndex, t: GroupKey)
    requires KeyedBySource(idx)
    ensures GroupRecords(GroupFor(idx, t)) == Select(MappingRecords(AllMappings(idx)), {t})
  {
    ElementsSelection(idx.keys, idx.slots, t);
  }

  lemma {:induction false} PairsAreTuples(keys: seq<Code>, slots: map<Code, seq<Mapping>>)
    requires forall k, m :: k in slots && m in slots[k] ==> m.sourceCode == k
    ensures Pairs(keys, slots) == set m | m in Flatten(keys, slots) :: Tuple(m)
  {
    if keys != [] {
      var p, c := keys[..|keys| - 1], keys[|keys| - 1];
      var ms := if c in slots then slots[c] else [];
      PairsAreTuples(p, slots);
      assert SlotPairs(c, ms) == set m | m in ms :: Tuple(m) by {
        forall m | m in ms ensures PairOf(c, m) == Tuple(m) { }
      }
    }
  }

  /**
   * The collected tuples are exactly the 4-tuples of the indexed Mappings, read off
   * each Mapping's own source and target Codes.
   */
  lemma PairSetIsTuples(idx: MappingIndex)
    requires KeyedBySource(idx)
    ensures PairSet(idx) == set m | m in AllMappings(idx) :: Tuple(m)
  {
    PairsAreTuples(idx.keys, idx.slots);
  }

  /** The group headers of a serialization are the 4-tuples occurring among the indexed Mappings. */
  lemma HeadersAreTuples(idx: MappingIndex, groups: seq<Group>)
    requires KeyedBySource(idx) && IsSerialization(idx, groups)
    ensures Headers(groups) == set m | m in AllMappings(idx) :: Tuple(m)
    ensures |groups| == |Headers(groups)|
  {
    PairSetIsTuples(idx);
    DistinctHeadersCount(groups);
  }

  lemma HeadersSnoc(p: seq<Group>, g: Group)
    requires forall x :: x in p ==> HeaderOf(x) != HeaderOf(g)
    ensures Headers(p + [g]) == Headers(p) + {HeaderOf(g)}
    ensures HeaderOf(g) !in Headers(p)
  {
  }

  lemma {:induction false} DistinctHeadersCount(groups: seq<Group>)
    requires forall i, j :: 0 <= i < j < |groups| ==> HeaderOf(groups[i]) != HeaderOf(groups[j])
    ensures |groups| == |Headers(groups)|
  {
    if groups == [] {
      assert Headers(groups) == {};
    } else {
      var p, g := groups[..|groups| - 1], groups[|groups| - 1];
      assert groups == p + [g];
      assert forall i :: 0 <= i < |p| ==> p[i] == groups[i];
      DistinctHeadersCount(p);
      assert forall x :: x in p ==> HeaderOf(x) != HeaderOf(g) by {
        forall x | x in p ensures HeaderOf(x) != HeaderOf(g) {
          var i :| 0 <= i < |p| && p[i] == x;
          assert groups[i] == x;
        }
      }
      HeadersSnoc(p, g);
    }
  }

  lemma {:induction false} AllRecordsPartition(rs: seq<Record>, groups: seq<Group>)
    requires forall i :: 0 <= i < |groups| ==> GroupRecords(groups[i]) == Select(rs, {HeaderOf(groups[i])})
    requires forall i, j :: 0 <= i < j < |groups| ==> HeaderOf(groups[i]) != HeaderOf(groups[j])
    ensures multiset(AllRecords(groups)) == multiset(Select(rs, Headers(groups)))
  {
    if groups == [] {
      assert Headers(groups) == {};
      SelectNone(rs);
    } else {
      var p, g := groups[..|groups| - 1], groups[|groups| - 1];
      var h := HeaderOf(g);
      assert forall i :: 0 <= i < |p| ==> p[i] == groups[i];
      AllRecordsPartition(rs, p);
      assert forall x :: x in p ==> HeaderOf(x) != h by {
        forall x | x in p ensures HeaderOf(x) != h {
          var i :| 0 <= i < |p| && p[i] == x;
          assert groups[i] == x;
        }
      }
      HeadersSnoc(p, g);
      assert groups == p + [g];
      SelectSplit(rs, Headers(p), h);
      assert GroupRecords(g) == Select(rs, {h});
      calc {
        multiset(AllRecords(groups));
        multiset(AllRecords(p) + GroupRecords(g));
        multiset(Select(rs, Headers(p))) + multiset(Select(rs, {h}));
        multiset(Select(rs, Headers(p) + {h}));
      }
    }
  }

  lemma {:induction false} SelectNone(rs: seq<Record>)
    ensures Select(rs, {}) == []
  {
    if rs != [] {
      SelectNone(rs[..|rs| - 1]);
    }
  }

  /**
   * Completeness across groups: taken together, the target entries of a serialization
   * are exactly the indexed Mappings, each once and under the header of its own tuple.
   */
  lemma SerializationIsPartition(idx: MappingIndex, groups: seq<Group>)
    requires KeyedBySource(idx) && IsSerialization(idx, groups)
    ensures multiset(AllRecords(groups)) == multiset(MappingRecords(AllMappings(idx)))
  {
    var rs := MappingRecords(AllMappings(idx));
    forall i | 0 <= i < |groups|
      ensures GroupRecords(groups[i]) == Select(rs, {HeaderOf(groups[i])})
    {
      GroupIsSelection(idx, HeaderOf(groups[i]));
    }
    AllRecordsPartition(rs, groups);
    RecordHeadersArePairs(idx);
    SelectAll(rs, Headers(groups));
  }

  lemma RecordHeadersArePairs(idx: MappingIndex)
    requires KeyedBySource(idx)
    ensures forall x :: x in MappingRecords(AllMappings(idx)) ==> x.header in PairSet(idx)
  {
    PairSetIsTuples(idx);
    var ms := AllMappings(idx);
    forall x | x in MappingRecords(ms) ensures x.header in PairSet(idx) {
      var i :| 0 <= i < |ms| && MappingRecords(ms)[i] == x;
      assert ms[i] in ms;
    }
  }

  /**
   * Each indexed Mapping appears, as the target entry of its source code's element,
   * in the group of its own tuple and in no other group.
   */
  lemma MappingInOwnGroupOnly(idx: MappingIndex, groups: seq<Group>, m: Mapping)
    requires KeyedBySource(idx) && IsSerialization(idx, groups)
    requires m in AllMappings(idx)
    ensures exists i :: 0 <= i < |groups| && HeaderOf(groups[i]) == Tuple(m)
    ensures forall i :: 0 <= i < |groups| ==>
      (MappingRecord(m) in GroupRecords(groups[i]) <==> HeaderOf(groups[i]) == Tuple(m))
  {
    var rs := MappingRecords(AllMappings(idx));
    PairSetIsTuples(idx);
    assert Tuple(m) in Headers(groups);
    var g :| g in groups && HeaderOf(g) == Tuple(m);
    var k :| 0 <= k < |groups| && groups[k] == g;
    assert HeaderOf(groups[k]) == Tuple(m);
    var n :| 0 <= n < |AllMappings(idx)| && AllMappings(idx)[n] == m;
    assert rs[n] == MappingRecord(m);
    forall i | 0 <= i < |groups|
      ensures MappingRecord(m) in GroupRecords(groups[i]) <==> HeaderOf(groups[i]) == Tuple(m)
    {
      GroupIsSelection(idx, HeaderOf(groups[i]));
      if HeaderOf(groups[i]) == Tuple(m) {
        SelectKeeps(rs, {Tuple(m)}, n);
      }
    }
  }

  lemma {:induction false} SelectKeeps(rs: seq<Record>, hs: set<GroupKey>, n: nat)
    requires n < |rs| && rs[n].header in hs
    ensures rs[n] in Select(rs, hs)
  {
    if n < |rs| - 1 {
      SelectKeeps(rs[..|rs| - 1], hs, n);
    }
  }

  /** The keys of the source half of `t`, in key order. */
  function SourceKeys(keys: seq<Code>, t: GroupKey): (r: seq<Code>)
    ensures forall c :: c in r <==> c in keys && SourceMatches(c, t)
  {
    if keys == [] then []
    else
      var c := keys[|keys| - 1];
      SourceKeys(keys[..|keys| - 1], t) + if SourceMatches(c, t) then [c] else []
  }

  /**
   * The elements of group `t`: one for each key of its source half, in key order,
   * holding that key's code and display and the target entries of its Mappings that
   * match the target half, in list order (possibly none).
   */
  lemma {:induction false} ElementPerSourceKey(keys: seq<Code>, slots: map<Code, seq<Mapping>>, t: GroupKey)
    ensures var es, ks := Elements(keys, slots, t), SourceKeys(keys, t);
      && |es| == |ks|
      && forall i :: 0 <= i < |es| ==>
        && es[i].code == ks[i].code
        && es[i].display == ks[i].display
        && es[i].target == TargetEntries(Filtered(if ks[i] in slots then slots[ks[i]] else [], t))
  {
    if keys != [] {
      ElementPerSourceKey(keys[..|keys| - 1], slots, t);
    }
  }

  /** With distinct keys, each key of the source half of `t` is listed once. */
  lemma {:induction false} SourceKeysDistinct(keys: seq<Code>, t: GroupKey)
    requires forall i, j :: 0 <= i < j < |keys| ==> keys[i] != keys[j]
    ensures var ks := SourceKeys(keys, t);
      forall i, j :: 0 <= i < j < |ks| ==> ks[i] != ks[j]
  {
    if keys != [] {
      var p, c := keys[..|keys| - 1], keys[|keys| - 1];
      SourceKeysDistinct(p, t);
      assert c !in p by {
        assert forall i :: 0 <= i < |p| ==> p[i] == keys[i] != keys[|keys| - 1];
      }
      assert c !in SourceKeys(p, t);
    }
  }

  lemma {:induction false} DistinctMultiset<T>(s: seq<T>, x: T)
    requires forall i, j :: 0 <= i < j < |s| ==> s[i] != s[j]
    ensures multiset(s)[x] == if x in s then 1 else 0
  {
    if s != [] {
      var p := s[..|s| - 1];
      DistinctMultiset(p, x);
      assert s == p + [s[|s| - 1]];
      assert s[|s| - 1] !in p by {
        assert forall i :: 0 <= i < |p| ==> p[i] == s[i] != s[|s| - 1];
      }
    }
  }

  /**
   * Two serializations of the same index differ at most in the order of their
   * groups: they hold the same groups, and no group twice.
   */
  lemma SerializationsAgree(idx: MappingIndex, g1: seq<Group>, g2: seq<Group>)
    requires IsSerialization(idx, g1) && IsSerialization(idx, g2)
    ensures multiset(g1) == multiset(g2)
  {
    assert forall i, j :: 0 <= i < j < |g1| ==> g1[i] != g1[j];
    assert forall i, j :: 0 <= i < j < |g2| ==> g2[i] != g2[j];
    forall g ensures multiset(g1)[g] == multiset(g2)[g] {
      DistinctMultiset(g1, g);
      DistinctMultiset(g2, g);
      if g in g1 {
        var i :| 0 <= i < |g1| && g1[i] == g;
        assert HeaderOf(g) in Headers(g2);
        var h :| h in g2 && HeaderOf(h) == HeaderOf(g);
        var j :| 0 <= j < |g2| && g2[j] == h;
        assert g2[j] == GroupFor(idx, HeaderOf(g));
      }
      if g in g2 {
        var j :| 0 <= j < |g2| && g2[j] == g;
        assert HeaderOf(g) in Headers(g1);
        var h :| h in g1 && HeaderOf(h) == HeaderOf(g);
        var i :| 0 <= i < |g1| && g1[i] == h;
        assert g1[i] == GroupFor(idx, HeaderOf(g));
      }
    }
    assert multiset(g1) == multiset(g2);
  }
}
