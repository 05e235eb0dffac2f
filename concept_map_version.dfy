/**
 * `ConceptMap` and `ConceptMapVersion` of the new maps system, after their database
 * rows have been fetched: loading the mapping index, grouping it, and assembling the
 * FHIR ConceptMap resource.
 */
module ConceptMaps {
  import opened Codes
  import opened Mappings
  import opened Grouping

  /** The metadata row of a logical concept map, as `ConceptMap.load_data` copies it. */
  datatype ConceptMap = ConceptMap(
    uuid: string,
    title: string,
    description: Option<string>,
    purpose: string,
    publisher: string,
    experimental: bool,
    author: string,
    createdDate: string)

  /** The metadata row of a concept-map version, as `ConceptMapVersion.load_data` reads it. */
  datatype VersionRow = VersionRow(
    conceptMapUuid: string,
    description: Option<string>,
    comments: Option<string>,
    status: string,
    createdDate: string,
    effectiveStart: Option<string>,
    effectiveEnd: Option<string>,
    version: string)

  /** The dictionary `serialize` returns. */
  datatype Document = Document(
    title: string,
    description: string,
    purpose: string,
    publisher: string,
    experimental: bool,
    comments: Option<string>,
    status: string,
    effectiveStart: Option<string>,
    effectiveEnd: Option<string>,
    version: string,
    group: seq<Group>,
    resourceType: string)

  const VersionNotesSeparator := " Version-specific notes:"

  /**
   * The combined description: the concept map's description, the separator (with no
   * space before its colon), then the version's description, each as `str` prints it.
   */
  function CombinedDescription(parent: Option<string>, version: Option<string>): (r: string)
    ensures |r| == |PyStr(parent)| + |VersionNotesSeparator| + |PyStr(version)|
    ensures r[..|PyStr(parent)|] == PyStr(parent)
    ensures r[|PyStr(parent)|..|PyStr(parent)| + |VersionNotesSeparator|] == VersionNotesSeparator
    ensures r[|PyStr(parent)| + |VersionNotesSeparator|..] == PyStr(version)
  {
    PyStr(parent) + VersionNotesSeparator + PyStr(version)
  }

  class ConceptMapVersion {
    const uuid: string
    var conceptMap: ConceptMap
    var description: Option<string>
    var comments: Option<string>
    var status: string
    var createdDate: string
    var effectiveStart: Option<string>
    var effectiveEnd: Option<string>
    var version: string
    /** The keys of `self.mappings` in insertion order. */
    var keyOrder: seq<Code>
    /** `self.mappings`: source Code to the Mappings loaded for it. */
    var mappings: map<Code, seq<Mapping>>

    /** Everything `load_data` copies from the version row and its parent. */
    function Metadata(): (ConceptMap, Option<string>, Option<string>, string, string, Option<string>, Option<string>, string)
      reads this
    {
      (conceptMap, description, comments, status, createdDate, effectiveStart, effectiveEnd, version)
    }

    /** The mapping dictionary as a value. */
    function Indexed(): MappingIndex
      reads this
    {
      MappingIndex(keyOrder, mappings)
    }

    /** The dictionary lists each key once, and files each Mapping under its own source Code. */
    predicate Valid()
      reads this
    {
      WellFormed(Indexed()) && KeyedBySource(Indexed())
    }

    /**
     * `__init__` and `load_data` once the version row, its parent concept map and the
     * joined mapping rows have been fetched: copy the metadata, then load the mappings
     * into an empty dictionary.
     */
    constructor (uuid: string, row: VersionRow, parent: ConceptMap, rows: seq<MappingRow>)
      requires parent.uuid == row.conceptMapUuid
      ensures Valid()
      ensures this.uuid == uuid && conceptMap == parent
      ensures description == row.description && comments == row.comments && status == row.status
      ensures createdDate == row.createdDate && version == row.version
      ensures effectiveStart == row.effectiveStart && effectiveEnd == row.effectiveEnd
      ensures Indexed() == InsertRows(Empty, rows)
    {
      this.uuid := uuid;
      conceptMap := parent;
      description := row.description;
      comments := row.comments;
      status := row.status;
      createdDate := row.createdDate;
      effectiveStart := row.effectiveStart;
      effectiveEnd := row.effectiveEnd;
      version := row.version;
      keyOrder := [];
      mappings := map[];
      new;
      assert Indexed() == Empty;
      LoadMappings(rows);
    }

    /**
     * The row loop of `load_mappings`: build the source Code, the target Code and the
     * Mapping of each row and append the Mapping under its source Code, creating the
     * slot on first insertion.
     */
    method LoadMappings(rows: seq<MappingRow>)
      requires Valid()
      modifies this
      ensures Metadata() == old(Metadata())
      ensures Valid()
      ensures Indexed() == InsertRows(old(Indexed()), rows)
      ensures old(keyOrder) <= keyOrder
    {
      var i := 0;
      while i < |rows|
        invariant 0 <= i <= |rows|
        invariant Indexed() == InsertRows(old(Indexed()), rows[..i])
        invariant Valid()
        invariant Metadata() == old(Metadata())
      {
        var item := rows[i];
        var sourceCode := Code(item.sourceFhirUri, item.sourceVersion, item.sourceCode, item.sourceDisplay);
        var targetCode := Code(item.targetFhirUri, item.targetVersion, item.targetConceptCode, item.targetConceptDisplay);
        var equivalence := item.relationshipCode;
        var mapping := Mapping(sourceCode, equivalence, targetCode);
        ghost var before := Indexed();
        assert mapping == RowMapping(item);
        assert rows[..i + 1][..i] == rows[..i];
        assert InsertRows(old(Indexed()), rows[..i + 1]) == Insert(before, mapping);
        if sourceCode in mappings {
          mappings := mappings[sourceCode := mappings[sourceCode] + [mapping]];
        } else {
          keyOrder := keyOrder + [sourceCode];
          mappings := mappings[sourceCode := [mapping]];
        }
        assert Indexed() == Insert(before, mapping);
        i := i + 1;
      }
      assert rows[..|rows|] == rows;
    }

    /**
     * The first half of `serialize_mappings`: the set of 4-tuples (key system, key
     * version, target system, target version) over every stored Mapping.
     */
    method CollectPairs() returns (pairs: set<GroupKey>)
      requires Valid()
      ensures pairs == PairSet(Indexed())
    {
      pairs := {};
      var i := 0;
      while i < |keyOrder|
        invariant 0 <= i <= |keyOrder|
        invariant pairs == Pairs(keyOrder[..i], mappings)
      {
        var sourceCode := keyOrder[i];
        var ms := mappings[sourceCode];
        var j := 0;
        while j < |ms|
          invariant 0 <= j <= |ms|
          invariant pairs == Pairs(keyOrder[..i], mappings) + SlotPairs(sourceCode, ms[..j])
        {
          var mapping := ms[j];
          pairs := pairs + {GroupKey(sourceCode.system, sourceCode.version, mapping.targetCode.system, mapping.targetCode.version)};
          assert ms[..j + 1] == ms[..j] + [ms[j]];
          SlotPairsSnoc(sourceCode, ms[..j], mapping);
          j := j + 1;
        }
        assert ms[..j] == ms;
        assert keyOrder[..i + 1][..i] == keyOrder[..i];
        i := i + 1;
      }
      assert keyOrder[..i] == keyOrder;
    }

    /**
     * The element loop of `serialize_mappings` for one tuple: one element per key of
     * the tuple's source half, with that key's Mappings filtered to its target half.
     */
    method GroupElements(t: GroupKey) returns (elements: seq<Element>)
      requires Valid()
      ensures elements == Elements(keyOrder, mappings, t)
    {
      elements := [];
      var k := 0;
      while k < |keyOrder|
        invariant 0 <= k <= |keyOrder|
        invariant elements == Elements(keyOrder[..k], mappings, t)
      {
        var sourceCode := keyOrder[k];
        if sourceCode.system == t.source && sourceCode.version == t.sourceVersion {
          var filtered := Filtered(mappings[sourceCode], t);
          elements := elements + [Element(sourceCode.code, sourceCode.display, TargetEntries(filtered))];
        }
        assert keyOrder[..k + 1][..k] == keyOrder[..k];
        k := k + 1;
      }
      assert keyOrder[..k] == keyOrder;
    }

    /**
     * `serialize_mappings`: collect the distinct 4-tuples of the stored Mappings, then
     * emit one group per tuple, taking the tuples in an unspecified order.
     */
    method SerializeMappings() returns (groups: seq<Group>)
      requires Valid()
      ensures IsSerialization(Indexed(), groups)
    {
      var pairs := CollectPairs();
      groups := [];
      var remaining := pairs;
      while remaining != {}
        invariant remaining <= pairs
        invariant forall n :: 0 <= n < |groups| ==> groups[n] == GroupFor(Indexed(), HeaderOf(groups[n]))
        invariant forall n, m :: 0 <= n < m < |groups| ==> HeaderOf(groups[n]) != HeaderOf(groups[m])
        invariant Headers(groups) == pairs - remaining
        decreases remaining
      {
        var t :| t in remaining;
        var elements := GroupElements(t);
        var group := Group(t.source, t.sourceVersion, t.target, t.targetVersion, elements);
        assert group == GroupFor(Indexed(), t);
        assert forall g :: g in groups ==> HeaderOf(g) != t;
        HeadersSnoc(groups, group);
        groups := groups + [group];
        remaining := remaining - {t};
      }
    }

    /**
     * `serialize`: the FHIR ConceptMap resource. The description combines the concept
     * map's and the version's; the publisher is filled from the concept map's purpose.
     */
    method Serialize() returns (doc: Document)
      requires Valid()
      ensures doc.resourceType == "ConceptMap"
      ensures doc.title == conceptMap.title
      ensures doc.description == CombinedDescription(conceptMap.description, description)
      ensures doc.purpose == conceptMap.purpose && doc.publisher == conceptMap.purpose
      ensures doc.experimental == conceptMap.experimental
      ensures doc.comments == comments && doc.status == status && doc.version == version
      ensures doc.effectiveStart == effectiveStart && doc.effectiveEnd == effectiveEnd
      ensures IsSerialization(Indexed(), doc.group)
    {
      var combinedDescription := CombinedDescription(conceptMap.description, description);
      var groups := SerializeMappings();
      doc := Document(
        conceptMap.title,
        combinedDescription,
        conceptMap.purpose,
        conceptMap.purpose,
        conceptMap.experimental,
        comments,
        status,
        effectiveStart,
        effectiveEnd,
        version,
        groups,
        "ConceptMap");
    }
  }
}
