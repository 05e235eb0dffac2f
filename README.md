# Concept-map version assembly, modelled in Dafny

This project models the in-memory core of the terminology server's concept-map
reader (`app/models/concept_maps.py`): what happens once the database rows of a
concept-map version have been fetched.

- **Mapping index** (`mappings.dfy`, module `Mappings`). `ConceptMapVersion.load_mappings`
  turns each joined result row into a source `Code`, a target `Code` and a `Mapping`. It
  appends the Mapping to `self.mappings`, a dictionary keyed by source Code, and creates
  the slot on first insertion. The dictionary is modelled as its keys in insertion order
  (`keys`) plus a `map<Code, seq<Mapping>>` (`slots`). The specification function
  `InsertRows` gives the dictionary after a sequence of rows. `NewKeys` gives the keys
  the rows add, each at the first row that carries it.
- **Grouping** (`grouping.dfy`, module `Grouping`). `serialize_mappings` collects the set
  of 4-tuples (source system, source version, target system, target version). It then
  emits one FHIR ConceptMap `group` per tuple. A group holds one `element` per source
  Code of its source half, and that element's targets are the Code's Mappings of its
  target half. Python iterates a `set` in no specified order, so `IsSerialization`
  accepts the groups in any order, each tuple exactly once.
- **Resource assembly** (`concept_map_version.dfy`, module `ConceptMaps`). Class
  `ConceptMapVersion` holds the version metadata, its parent `ConceptMap` (a value) and
  the dictionary. `LoadMappings`, `SerializeMappings` and `Serialize` are its methods.
  `Serialize` reproduces two quirks of the source. The description is
  `str(parent description) + " Version-specific notes:" + str(version description)`,
  with no space before the colon and `None` printed as "None". The `publisher` field is
  filled from the parent's `purpose`, not from its `publisher`.
- **Legacy lookup tables** (`deprecated_concept_map.dfy`, module `DeprecatedMaps`). Class
  `DeprecatedConceptMap` builds `source_code_to_target_map` and
  `target_code_to_source_map` with loops. Both keep only the mappings whose relationship
  code is an accepted type. Both key by the `strip()`ped code and append values in order.
  Both are specified by one function, `Table`, which takes the side that gives the key.
  `TableKeys` gives the dictionary's key order: each key at its first accepted mapping.

`Code` is defined in `app/models/codes.py`, which is not part of this model. The model
assumes that a `Code` is a four-field value (system, version, code, display) and that
`Code.__eq__` and `Code.__hash__` compare all four fields. Dictionary lookups rely on
that equality; the group filters compare `system` and `version` strings only. Under this
assumption, two rows whose source codes differ only in display give two keys
(`Mappings.DisplaySplitsKeys`). So a group of their source half has one element for each
(`Grouping.ElementPerSourceKey` with `Grouping.SourceKeys`).

The model follows the code in these points:
- The code sorts nothing. Groups come in set-iteration order, elements in dictionary
  insertion order, and targets in the order the rows were loaded.
- A missing row raises no dedicated error. It causes an attribute error on `None`, which is
  left out (see below).

## Model

| member | source | states |
|---|---|---|
| `Codes.PyStr` | app/models/concept_maps.py:270 | `str()` of a nullable text column: the text itself, or "None" for `None` |
| `Mappings.RowMapping` | app/models/concept_maps.py:209-213 | definition, no contract: the source Code is (source URI, source version, source code, source display), the target Code likewise, and the equivalence is the row's relationship code |
| `Mappings.Insert` | app/models/concept_maps.py:213-217 | one row-loop step keeps the key order duplicate-free and aligned with the map, keeps every Mapping under its own source Code, appends the Mapping to its source Code's list, leaves every other list unchanged, and only extends the key order |
| `Mappings.InsertRows` | app/models/concept_maps.py:208-217 | after the row loop the dictionary is still well formed and keyed by source Code; its keys are the earlier keys plus the rows' source Codes, and the earlier key order is a prefix of the new one |
| `Mappings.NewKeys` | app/models/concept_maps.py:214-217 | the keys a batch of rows adds are distinct, and they are exactly the rows' source Codes that were not keys before |
| `Mappings.NewKeysPrefix` | app/models/concept_maps.py:208-217 | the keys added by the first `n` rows are a prefix of those added by all rows, so keys appear in order of first occurrence |
| `Mappings.InsertRowsKeyOrder` | app/models/concept_maps.py:208-217 | after loading, the key order is the earlier keys followed by `NewKeys`, i.e. each new source Code at the row where it first occurs |
| `Mappings.DisplaySplitsKeys` | app/models/concept_maps.py:209-217 | two rows whose source Codes differ only in display yield two keys, in row order |
| `Mappings.DistinctSourcesTwoKeys` | app/models/concept_maps.py:214-217 | inserting two Mappings with different source Codes into an empty dictionary yields both as keys, in insertion order |
| `Mappings.InsertRowsAppends` | app/models/concept_maps.py:214-217 | loading only appends: each key's list is its earlier list followed by the Mappings of the rows with that source Code, in row order; other keys are untouched |
| `Mappings.InsertAddsOne` | app/models/concept_maps.py:213-217 | one insertion adds exactly that Mapping to the flattened dictionary |
| `Mappings.InsertRowsAddsRows` | app/models/concept_maps.py:208-217 | the stored Mappings are, as a multiset, the earlier ones plus one per processed row |
| `Mappings.InsertRowsCount` | app/models/concept_maps.py:208-217 | the number of stored Mappings grows by exactly the number of rows |
| `Grouping.PairSet` | app/models/concept_maps.py:221-232 | definition, no contract: `source_target_pairs_set`, the 4-tuples of every Mapping over the keys in order (characterised by `PairSetIsTuples`) |
| `Grouping.Elements` | app/models/concept_maps.py:239-255 | definition, no contract: one element per key of the group's source half, in key order (characterised by `ElementPerSourceKey`) |
| `Grouping.GroupFor` | app/models/concept_maps.py:237-265 | definition, no contract: the group emitted for one tuple, its header copied from the tuple and its elements given by `Elements` |
| `Grouping.IsSerialization` | app/models/concept_maps.py:219-267 | definition, no contract: what `serialize_mappings` may return, namely each group equal to `GroupFor` of its header, no header twice, and the headers equal to `PairSet` |
| `Grouping.Filtered` | app/models/concept_maps.py:241 | the filtered list keeps exactly the Mappings whose target system and version are the group's target half |
| `Grouping.TargetEntries` | app/models/concept_maps.py:246-253 | one target entry per Mapping in list order, copying target code, display and equivalence, with `comment` = None |
| `Grouping.SlotSelection` | app/models/concept_maps.py:239-255 | the element of a source Code of the group's source half lists, in order, exactly that Code's Mappings whose tuple is the group's |
| `Grouping.SlotSelectionOther` | app/models/concept_maps.py:240 | a source Code outside the group's source half has no Mapping with the group's tuple |
| `Grouping.GroupIsSelection` | app/models/concept_maps.py:237-265 | soundness and completeness of one group: its entries are exactly, and in order, those of the indexed Mappings whose 4-tuple is the group header |
| `Grouping.PairSetIsTuples` | app/models/concept_maps.py:221-232 | the collected tuple set equals the set of 4-tuples of the indexed Mappings, read off each Mapping's own Codes |
| `Grouping.HeadersAreTuples` | app/models/concept_maps.py:221-265 | the group headers are exactly the distinct 4-tuples of the indexed Mappings, one group per tuple |
| `Grouping.SerializationIsPartition` | app/models/concept_maps.py:219-267 | across all groups the target entries are exactly the indexed Mappings, each once, under its own tuple's header, source code and display |
| `Grouping.MappingInOwnGroupOnly` | app/models/concept_maps.py:219-267 | every indexed Mapping appears in the group of its own tuple and in no other group |
| `Grouping.ElementPerSourceKey` | app/models/concept_maps.py:239-255 | a group has one element per source Code of its source half, in dictionary order, with that Code's code and display and its matching targets, possibly none |
| `Grouping.SourceKeys` | app/models/concept_maps.py:239-240 | a Code yields an element of a group iff it is a key whose system and version are the group's source half |
| `Grouping.SourceKeysDistinct` | app/models/concept_maps.py:239-240 | with distinct dictionary keys, no source Code yields two elements of one group |
| `Grouping.SerializationsAgree` | app/models/concept_maps.py:237 | two results of grouping the same dictionary hold the same groups and differ at most in order |
| `ConceptMaps.CombinedDescription` | app/models/concept_maps.py:270 | the description is the parent's text, then " Version-specific notes:", then the version's text, with `None` printed as "None" |
| `ConceptMaps.ConceptMapVersion.constructor` | app/models/concept_maps.py:141-177 | the version metadata and parent concept map are copied from the fetched rows, and the dictionary is the empty one after loading the mapping rows |
| `ConceptMaps.ConceptMapVersion.LoadMappings` | app/models/concept_maps.py:208-217 | the new dictionary is `InsertRows` of the old one and the rows, still well formed and keyed by source Code; the metadata is unchanged |
| `ConceptMaps.ConceptMapVersion.CollectPairs` | app/models/concept_maps.py:221-232 | the nested loop collects exactly the tuple set of the dictionary |
| `ConceptMaps.ConceptMapVersion.GroupElements` | app/models/concept_maps.py:238-255 | the element loop for one tuple builds exactly that group's elements |
| `ConceptMaps.ConceptMapVersion.SerializeMappings` | app/models/concept_maps.py:219-267 | the result holds one group per collected tuple, each exactly the group of its header, in some order |
| `ConceptMaps.ConceptMapVersion.Serialize` | app/models/concept_maps.py:269-286 | `resourceType` is "ConceptMap"; the description is combined; `publisher` equals the parent's `purpose`; the other fields are copied; `group` is a serialization of the dictionary |
| `DeprecatedMaps.IsSpace` | app/models/concept_maps.py:49 | definition, no contract: the characters Python's `str.isspace` accepts, which `strip()` removes here and at line 63 |
| `DeprecatedMaps.TrimStart` | app/models/concept_maps.py:49 | part of both `strip()` calls (lines 49 and 63); removes exactly the leading whitespace: the result is a suffix, everything dropped is whitespace, and it does not start with whitespace |
| `DeprecatedMaps.TrimEnd` | app/models/concept_maps.py:63 | part of both `strip()` calls (lines 49 and 63); removes exactly the trailing whitespace: the result is a prefix, everything dropped is whitespace, and it does not end with whitespace |
| `DeprecatedMaps.Strip` | app/models/concept_maps.py:49 | `strip()` returns text that neither starts nor ends with whitespace |
| `DeprecatedMaps.StripIsSlice` | app/models/concept_maps.py:49 | `strip()` returns a contiguous slice of its input, and everything outside the slice is whitespace |
| `DeprecatedMaps.KeyOf` | app/models/concept_maps.py:49 | definition, no contract: the key of a mapping is its stripped source code, or (line 63) its stripped target code for the target-keyed table |
| `DeprecatedMaps.ValueOf` | app/models/concept_maps.py:50 | definition, no contract: the value of a mapping is its target Code, or (line 64) its source Code for the target-keyed table |
| `DeprecatedMaps.Table` | app/models/concept_maps.py:43-69 | a key is present iff some accepted mapping has it as stripped code; its list holds, in order, the values of exactly those mappings, so it is never empty |
| `DeprecatedMaps.TableKeys` | app/models/concept_maps.py:45-54 | the table's key order lists each key once, and exactly the keys of the table |
| `DeprecatedMaps.TableKeysPrefix` | app/models/concept_maps.py:46-54 | the key order of the first `n` mappings is a prefix of the full key order, so keys appear at their first accepted occurrence |
| `DeprecatedMaps.TableKeysFromAccepted` | app/models/concept_maps.py:47-49 | each key of a table is the stripped code of a mapping whose relationship code is accepted |
| `DeprecatedMaps.TableKeysMirrored` | app/models/concept_maps.py:57-69 | the target-keyed key order is the source-keyed key order of the mappings with their sides exchanged |
| `DeprecatedMaps.TablesAreMirrored` | app/models/concept_maps.py:57-69 | the target-to-source table, with its key order, is the source-to-target table of the mappings with their sides exchanged |
| `DeprecatedMaps.LegacyMappings` | app/models/concept_maps.py:35-41 | one `(source Code, target Code, relationship code)` tuple per legacy row, in row order |
| `DeprecatedMaps.DeprecatedConceptMap.constructor` | app/models/concept_maps.py:11-18 | stores the identifier, accepted relationship types and map name, and the tuples of the fetched rows |
| `DeprecatedMaps.DeprecatedConceptMap.SourceCodeToTargetMap` | app/models/concept_maps.py:43-55 | the loop builds exactly `Table` of the loaded mappings, keyed by stripped source code, with its keys in `TableKeys` order |
| `DeprecatedMaps.DeprecatedConceptMap.TargetCodeToSourceMap` | app/models/concept_maps.py:57-69 | the loop builds exactly `Table` of the loaded mappings, keyed by stripped target code, with its keys in `TableKeys` order |

## Left out

- Database I/O. This covers `get_db()` and every SQL query: `DeprecatedConceptMap.load_mappings`
  (with its `targetConceptDisplay != 'null'` filter), `ConceptMap.load_data`,
  `ConceptMapVersion.load_data` and the join of `ConceptMapVersion.load_mappings`. The
  model takes the fetched rows as parameters. The inner and left join semantics live in
  SQL text and are not modelled.
- `ConceptMap.load_all_versions_metadata`: a SQL join returning flat records, with no in-memory logic.
- A missing row (`.first()` returning `None`) crashes the source with an attribute error.
  This is not a defined error path, so the model assumes the rows exist.
- `ConceptMap` is modelled as the value its loaded row gives, not as a class, because nothing updates it after loading.
- Nullable columns: the model keeps `None` (as `Option<string>`) for the concept map's
  and the version's descriptions, the version's `comments`, `effective_start` and
  `effective_end`, and the target entries' `comment`. Every other text column is a plain
  string and cannot be `None` in the model: the concept map's `title`, `purpose`,
  `publisher` and `author`, the version's `status` and `version`, the created dates, and
  each Code's system, version, code and display. `experimental` is a plain boolean.
- `Mapping.__repr__`, the unused `elasticsearch` and `numpy` imports, and all of `app/app.py`.
  This includes the HTTP routing, JSON encoding and logging.
- `Code` internals from `app/models/codes.py`. The model assumes four-field structural
  equality. If `Code.__eq__` compared only system, version and code, rows that differ
  only in display would share one key and one element. The model does not cover that case.
- `ConceptMaps.ConceptMapVersion.SerializeMappings`: Python picks set elements in an order
  that is fixed for a given set within one process. The model picks them freely.
  `SerializationsAgree` proves that two results of the model differ only in group order.
  It does not prove that repeated calls return the same order.

