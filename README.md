# django-criteria tagging engine, modelled in Dafny

The criteria engine tags features with the disease codes the features are evidence for. The features are genes, markers, regions and studies. For each rule, a *result container* maps each feature id to a *row*. A row maps each disease code to its list of evidence records `{fid, fname[, fnotes]}`. Rule functions read a hit document and merge records into that container. The flush then writes `score` and `disease_tags` into every row and sends the rows to the search index in bulk batches.

The model follows that structure:

| Dafny module | file it models |
|---|---|
| `Criteria` (`criteria.dfy`) | `criteria/helper/criteria.py`: evidence records, the merge, the fan-out, the score, the flush, the overlap filter, the query choice |
| `CriteriaManager` (`criteria_manager.dfy`) | `criteria/helper/criteria_manager.py`: disease tiers, grouping of config sections, selection of criteria |
| `GeneCriteria` (`gene_criteria.dfy`) | `criteria/helper/gene_criteria.py` |
| `RegionCriteria` (`region_criteria.dfy`) | `criteria/helper/region_criteria.py` |
| `StudyCriteria` (`study_criteria.dfy`) | `criteria/helper/study_criteria.py` |
| `MarkerCriteria` (`marker_criteria.dfy`) | `criteria/helper/marker_criteria.py` |
| `DataIntegrity` (`data_integrity.dfy`) | `criteria/data_integrity/test_utils.py`: row readers and the tag comparison |
| `OrderedDict`, `Text`, `Documents`, `Wrappers` | Python dicts (insertion-ordered), string methods, the hit documents, `Option`/`Result` |

Design of the model:

- **Containers are values.** A rule takes a container and returns the updated one, so it needs no shared mutable dict. A Python dict is an `ODict`: its key order plus its mapping.
- **Every rule is a sequence of merges.** Each rule's effect is `MergeAll(c, ts)`, where `ts` is a sequence of triples (feature, disease, evidence record). The central theorem is `Criteria.MergeAllList`: after the merges, each list equals its old contents followed by the new records, each added only if not already present.
- **Loops are methods proved against functions.** Each loop of the source is a `method` with a loop, proved equal to a specification function. The properties are lemmas about those functions.
- **Search-store lookups are inputs.** Document lookups, range searches and padding are passed in as maps, sequences or functions.

Where the model follows the code rather than the documentation:

- **Batch size.** A flush batch holds 5001 features, because the counter test is `> 5000`.
- **No `qid`.** The flush writes no `qid` field.
- **Merge order shows in the lists.** Merges commute only up to list order; `Criteria.MergeOrderShowsInLists` shows the difference.
- **`fnotes` count in the dedup.** Records are compared with full equality, `fnotes` included.
- **`populate_container`** is called by the rules but is not part of this model's sources. It is defined from its call sites: one merge per (feature, disease) pair. An empty disease list therefore creates no row.

Notes on the source:

- **Disease tiers.** `criteria/helper/criteria_manager.py:26` lists `IGE` among the tier-2 codes. The model uses that list, even though the expected fan-out in `criteria/test/test_region_criteria.py:96-111` omits `IGE`.
- **Stale gene test.** `criteria/test/test_gene_criteria.py:81` passes plain author strings. The code reads `name` and `initials`, and the model does the same.
- **Argument count.** `criteria/helper/criteria.py:43` calls `tag_feature_to_disease` with five arguments, while the rule classes take four. The model's dispatch is an explicit choice of rule by section name.
- **Marker tagging.** `MarkerCriteria.process_hits` calls `cls.tag_feature_to_disease`, which `MarkerCriteria` neither defines nor inherits. The model therefore takes the per-marker tagging as a parameter.
- **`status is 'N'`** in `is_an_index_snp` compares identity. The model treats it as equality, which is what CPython's cached one-character strings give.

## Model

| member | source | states |
|---|---|---|
| Criteria.GetCriteriaDict | criteria/helper/criteria.py:128-135 | the record has the given `fid` and `fname`, and carries `fnotes` exactly when they are given and non-empty |
| Criteria.MergeRow | criteria/helper/criteria.py:140-147 | merging one disease: the disease's list gains the record unless an equal one is present, other diseases' lists are unchanged, `score`/`disease_tags` are kept, existing disease keys keep their order |
| Criteria.GetCriteriaDiseaseDict | criteria/helper/criteria.py:138-149 | the loop over the diseases adds the record to the list of each given disease (a missing disease gets a one-element list) and leaves every other list as it was |
| Criteria.AddNewTwice | criteria/helper/criteria.py:143 | adding an equal record a second time changes nothing |
| Criteria.MergeDiseasesEvidence | criteria/helper/criteria.py:138-149 | the merge of several diseases, list by list: given diseases gain the record once, others are unchanged, the row stays a valid dict |
| Criteria.MergeDiseasesIdempotent | criteria/helper/criteria.py:143 | merging the same record into the same diseases twice equals merging once |
| Criteria.MergeDiseasesPresent | criteria/helper/criteria.py:143-145 | a record already in every given disease's list leaves the row unchanged |
| Criteria.Merge | criteria/helper/criteria.py:138-149 | one merge into a container: only the named list changes, a new feature gets a row, other rows are untouched, keys keep their order |
| Criteria.MergeAllList | criteria/helper/criteria.py:140-147 | after any sequence of merges, each list is its old contents followed by the new records in merge order, each added only when not yet present |
| Criteria.AppendNewMembers | criteria/helper/criteria.py:143-145 | the old list is a prefix of the new one, the members are old plus new, and a list without repeats stays without repeats |
| Criteria.MergeAllKeys | criteria/helper/criteria.py:140-147 | a feature has a row afterwards exactly when it had one or some merge names it; existing keys keep their order |
| Criteria.MergeAllUntouched | criteria/helper/criteria.py:140-147 | a feature that no merge names keeps its row |
| Criteria.MergeAllKeepsFlushFields | criteria/helper/criteria.py:140-147 | merges never change a row's `score` or `disease_tags` |
| Criteria.MergeAllAddsAll | criteria/helper/criteria.py:140-147 | every merged record ends up in its list |
| Criteria.MergeAllOnlyAdds | criteria/helper/criteria.py:143-145 | merges only append: each old list is a prefix of the new one |
| Criteria.MergeAllOtherPair | criteria/helper/criteria.py:140-147 | a (feature, disease) list that no merge names is unchanged |
| Criteria.MergeAllPresent | criteria/helper/criteria.py:143 | merges of records already present leave the container unchanged |
| Criteria.MergeAllIdempotent | criteria/helper/criteria.py:143 | repeating a sequence of merges changes nothing |
| Criteria.MergeAllContentOrderFree | criteria/helper/criteria.py:140-147 | merges with the same triples, in any order or repetition, give lists with the same members and rows for the same features |
| Criteria.MergeAllDistinct | criteria/helper/criteria.py:143 | lists without repeats stay without repeats |
| Criteria.MergeOrderShowsInLists | criteria/helper/criteria.py:144 | two different records merged in opposite orders give the lists `[e1, e2]` and `[e2, e1]` |
| Criteria.NotesTakePartInDedup | criteria/helper/criteria.py:143 | records that differ only in `fnotes` are both kept |
| Criteria.PopulateContainer | criteria/helper/gene_criteria.py:35-39 | population of features × diseases with one record is the merges for each feature, then each disease, in order |
| Criteria.PopulateEffect | criteria/helper/gene_criteria.py:35-39 | population adds the record to the list of each given feature for each given disease, unless present; every other list is unchanged |
| Criteria.PopulateKeys | criteria/helper/gene_criteria.py:35-39 | a feature gains a row exactly when it is given and the disease list is non-empty |
| Criteria.PopulateNothing | criteria/helper/study_criteria.py:29-35 | no features or no diseases: no merges and the container is unchanged |
| Criteria.DiseaseTiers | criteria/helper/criteria_manager.py:23-33 | the (core, other) pair is the tier-1 and tier-2 lists, which together are the full list |
| Criteria.CalculateScore | criteria/helper/criteria.py:219-232 | the loop's total is 10 per core code, 5 per other code and 0 per unknown code, and lies between 0 and 10 per code |
| Criteria.ScoreBounds | criteria/helper/criteria.py:219-232 | a score is between 0 and 10 times the number of codes |
| Criteria.ScoreAppend | criteria/helper/criteria.py:224-231 | the score of a concatenation is the sum of the scores |
| Criteria.ScorePermutation | criteria/helper/criteria.py:224-231 | the score does not depend on the order of the codes |
| Criteria.ScoreExamples | criteria/test/test_criteria.py:94-97 | the empty list scores 0 and `["AA", "T1D"]` scores 15 |
| Criteria.UnpackAvailableDiseasesAsWrittenFails | criteria/helper/criteria.py:221 | the list without a tier has 20 codes, so unpacking it as a pair raises `ValueError` |
| Criteria.AllDiseases | criteria/helper/criteria.py:84-96 | the fan-out covers the full code list, tier 1 then tier 2 |
| Criteria.TagFeatureToAllDiseases | criteria/helper/criteria.py:82-111 | the fan-out loop is one merge of `{fid: d, fname: d}` per available disease `d`, in order |
| Criteria.TagFeatureToDiseases | criteria/helper/criteria.py:95-111 | the same loop over any list of diseases: one merge per disease |
| Criteria.FanOutTriplesMembers | criteria/helper/criteria.py:95-111 | the fan-out merges are exactly `{fid: d, fname: d}` into the feature's list for each listed disease `d` |
| Criteria.FanOutEffect | criteria/helper/criteria.py:95-111 | after the fan-out, each listed disease's list of the feature gains `{fid: d, fname: d}` unless present; other features' rows are untouched |
| Criteria.FanOutTagsEveryDisease | criteria/helper/criteria.py:95-111 | after the fan-out, the feature's list for every available disease holds `{fid: d, fname: d}` |
| Criteria.DiseaseKeys | criteria/helper/criteria.py:245-251 | the row's disease keys are its keys without `score` and `disease_tags`, each once |
| Criteria.LoadResultContainer | criteria/helper/criteria.py:235-268 | the flush loop finalises every non-`None` row and sends their actions in order, in batches of 5001 with the residue last |
| Criteria.TagRow | criteria/helper/criteria.py:244-255 | a row's `disease_tags` become its disease keys and its `score` their score, its evidence lists unchanged |
| Criteria.BufferAction | criteria/helper/criteria.py:257-266 | appending one line to the bulk buffer loses and reorders nothing: the batches sent so far followed by the buffer gain exactly that line; every batch sent holds 5001 lines and the buffer never more than 5000 |
| Criteria.BatchesShape | criteria/helper/criteria.py:259-268 | the batches concatenate back to all actions, all but the last hold 5001, none is empty, and there are ceil(N/5001) of them |
| Criteria.ActionsContents | criteria/helper/criteria.py:238-258 | each action names a non-`None` feature, the index and type, and that feature's finalised row; every such feature has an action, and distinct keys give distinct actions |
| Criteria.FlushSendsEachFeatureOnce | criteria/helper/criteria.py:238-268 | every non-`None` feature is written exactly once, with its finalised row, in ceil(N/5001) bulk calls of 5001 (the last may be smaller) |
| Criteria.FinalizeRowTags | criteria/helper/criteria.py:244-255 | a finalised row keeps its lists; its `disease_tags` are exactly its disease keys, each once; its `score` is their score |
| Criteria.FlushIdempotent | criteria/helper/criteria.py:244-255 | flushing a flushed container changes nothing and sends the same rows |
| Criteria.ActionsOfFinalized | criteria/helper/criteria.py:248-255 | rows already finalised produce the same actions |
| Criteria.RangeFilterIsIntersection | criteria/helper/criteria.py:182-189 | for intervals with start ≤ end, the three-case range filter is exactly inclusive intersection |
| Criteria.IntersectionPassesFilter | criteria/helper/criteria.py:182-189 | every intersecting interval passes the filter, well formed or not |
| Criteria.MalformedEntryPassesFilter | criteria/helper/criteria.py:182-189 | an entry with start after end can pass the filter without intersecting |
| Criteria.TouchingEndpointsOverlap | criteria/helper/criteria.py:182-189 | intervals that share only an endpoint overlap |
| Criteria.FetchOverlappingFeatures | criteria/helper/criteria.py:177-216 | the result is exactly the documents with an entry of the same build and sequence that passes the range filter |
| Criteria.GetElasticQuery | criteria/helper/criteria.py:53-79 | a missing section raises `KeyError`; a non-MHC section gives match-all with its source fields; an MHC section gives the chr6 25–35 Mb overlap query, or `KeyError` for the first missing parameter |
| CriteriaManager.GetAvailableDiseases | criteria/helper/criteria_manager.py:23-33 | tier 1 gives the 12 core codes, tier 2 the 8 others, anything else both in that order |
| CriteriaManager.TiersPartition | criteria/helper/criteria_manager.py:25-26 | the tiers hold 12 and 8 codes, are disjoint, and the full list has no repeats |
| CriteriaManager.GetAvailableCriterias | criteria/helper/criteria_manager.py:36-59 | a feature is listed exactly when some section names it and it passes the filter; its list is its sections in config order |
| CriteriaManager.GroupedContents | criteria/helper/criteria_manager.py:43-57 | the grouping is a valid dict from each feature named by a section to that feature's sections, in order; sections without `feature` are ignored |
| CriteriaManager.RequestedMembers | criteria/helper/criteria_manager.py:74-77 | a requested name is run exactly when it is available and some stripped request piece equals it |
| CriteriaManager.ProcessCriterias | criteria/helper/criteria_manager.py:62-93 | a feature no section names raises `KeyError`; otherwise each selected section (all, or the available requested ones) is dispatched on the feature |
| CriteriaManager.UnsupportedFeatureOnlyReported | criteria/helper/criteria_manager.py:81-93 | a feature other than gene, marker, region or study only gets reported |
| GeneCriteria.CandGeneInStudy | criteria/helper/gene_criteria.py:22-40 | missing fields raise `KeyError` in read order, no authors raises `IndexError`; otherwise every gene's list for every disease gains `{fid: study_id, fname: name + ' ' + initials}` unless present, and nothing else changes |
| GeneCriteria.CandGeneInStudyOnlyAdds | criteria/helper/gene_criteria.py:35-40 | earlier evidence stays in front of the new evidence, and no feature loses its row |
| GeneCriteria.GetGeneDocsByEnsemblId | criteria/helper/gene_criteria.py:183-189 | the result maps exactly the requested ids found in the gene index to their documents |
| GeneCriteria.CandGeneInRegion | criteria/helper/gene_criteria.py:43-107 | the rule's nested loops are the merges of the hit's disease into each resolved gene, once per overlapping region, with the region as evidence, after the skip checks; a confirmed hit without `disease_locus` raises `KeyError` |
| GeneCriteria.CandGeneInRegionSkips | criteria/helper/gene_criteria.py:48-69 | a hit missing disease or status, not confirmed, or with a `tbc` locus leaves the container unchanged |
| GeneCriteria.CandGeneInRegionEffect | criteria/helper/gene_criteria.py:76-107 | only the hit's disease changes; genes not in the hit or not found keep their rows; a found gene's list for the disease becomes its old contents followed by the records of its overlapping regions, in region order, each unless already present; a found gene overlapping no region keeps its row |
| GeneCriteria.RegionHitStream | criteria/helper/gene_criteria.py:78-107 | over the distinct found genes, the records merged into a gene's list for the disease are exactly its overlapping regions' records, in order, and none for a gene not found |
| GeneCriteria.GeneRegionStream | criteria/helper/gene_criteria.py:95-107 | one gene's merges send its regions' records, in region order, to that gene's list for the disease and nothing to any other list |
| GeneCriteria.TagGenesWithRegions | criteria/helper/gene_criteria.py:76-107 | the loop over the resolved genes makes, for each gene in order, the merges of its overlapping regions |
| GeneCriteria.TagGeneWithRegions | criteria/helper/gene_criteria.py:95-107 | the loop over one gene's overlapping regions merges the hit's disease with each region as evidence, in order |
| GeneCriteria.RegionHitTriplesMembers | criteria/helper/gene_criteria.py:76-107 | the merges name only found genes of the hit and the hit's disease, each with the record of one of that gene's overlapping regions, and include every (gene, overlapping region) pair |
| GeneCriteria.GeneInRegion | criteria/helper/gene_criteria.py:127-160 | a padding failure changes nothing; otherwise the loop gathers the distinct genes in the padded span and populates them with the region's diseases |
| GeneCriteria.GeneInRegionEffect | criteria/helper/gene_criteria.py:127-160 | each gene in the padded span gains `{fid: region_id, fname: region_name}` for each region disease, unless present; all other lists are unchanged |
| GeneCriteria.FetchDiseaseLocus | criteria/helper/gene_criteria.py:163-180 | each distinct locus id is looked up once, and the documents are those of the lookups that return exactly one |
| GeneCriteria.KeptLociMembers | criteria/helper/gene_criteria.py:170-180 | a document is kept exactly when some id's lookup returns it alone |
| GeneCriteria.TagFeatureToDisease | criteria/helper/gene_criteria.py:110-124 | the rule named by the section is applied, `is_gene_in_mhc` being the all-diseases fan-out of the hit's id; a section naming no rule is an error |
| RegionCriteria.IsRegionForDisease | criteria/helper/region_criteria.py:37-78 | the three nested loops with their early returns compute the outcome of the scan of the region's study hits: `KeyError` for a missing field, `IndexError` for a hit with no document, the unchanged container at the first unconfirmed or `tbc` hit, otherwise the region tagged with the collected diseases |
| RegionCriteria.ScanHitIds | criteria/helper/region_criteria.py:54-70 | the innermost loop is the scan of one document's hit ids, stopping at the first missing, unconfirmed or `tbc` hit |
| RegionCriteria.ScanLocusDocs | criteria/helper/region_criteria.py:52-70 | the middle loop is the scan of the hit ids of one locus's documents, in order |
| RegionCriteria.ScanAllConcat | criteria/helper/region_criteria.py:46-70 | scanning two runs of hits is scanning the first, then the second from where it stopped |
| RegionCriteria.ScanAllStopped | criteria/helper/region_criteria.py:62-68 | once the scan has returned, later hits change nothing |
| RegionCriteria.UnconfirmedHitAbortsRegion | criteria/helper/region_criteria.py:59-68 | a found hit that is unconfirmed or `tbc`, after hits that were all found, makes the scan return unchanged whatever was collected before and whatever follows |
| RegionCriteria.UnconfirmedHitLeavesContainer | criteria/helper/region_criteria.py:59-68 | in that case the rule returns the caller's container unchanged |
| RegionCriteria.ScanCollects | criteria/helper/region_criteria.py:45-70 | a completed scan found and confirmed every hit, and collected each hit's disease exactly once |
| RegionCriteria.IsRegionForDiseaseEffect | criteria/helper/region_criteria.py:72-76 | only the region's own row changes, and each collected disease gains `{fid: region_id, fname: region_name}` unless present |
| RegionCriteria.TagFeatureToDisease | criteria/helper/region_criteria.py:20-34 | the rule named by the section is applied, `is_region_in_mhc` being the all-diseases fan-out of the hit's id; any other section is an error |
| StudyCriteria.StudyForDisease | criteria/helper/study_criteria.py:20-36 | missing `diseases` or `study_id` raises `KeyError`; otherwise the loop makes one population per disease, in order |
| StudyCriteria.StudyForDiseaseEffect | criteria/helper/study_criteria.py:29-35 | the study's list for each of its diseases `d` gains `{fid: d, fname: d}` unless present (a repeated disease gives one entry); every other list is unchanged |
| StudyCriteria.StudyForDiseaseRows | criteria/helper/study_criteria.py:26-35 | only the study's row changes; it exists afterwards exactly when it did before or the study has diseases |
| StudyCriteria.StudyAlreadyTagged | criteria/helper/study_criteria.py:22-36 | a study with no new diseases, in particular none at all, leaves the container as it was |
| StudyCriteria.StudyForDiseaseExample | criteria/test/test_study_criteria.py:56-62 | the test's study tags itself with `RA` and `T1D`, each disease's list holding the disease itself, and leaves `AA` untagged |
| StudyCriteria.TagFeatureToDisease | criteria/helper/study_criteria.py:39-46 | `study_for_disease` is applied for its section; any other section is an error |
| StudyCriteria.GetCriteriaDetails | criteria/helper/study_criteria.py:65-77 | the index defaults to the study criteria index; the index types are the comma-joined criteria of the `region` feature, or none when it has none |
| MarkerCriteria.IsAnIndexSnp | criteria/helper/marker_criteria.py:58-83 | the loop collects the distinct diseases of the documents that confirm the marker |
| MarkerCriteria.IndexSnpDiseases | criteria/helper/marker_criteria.py:62-81 | a disease is reported exactly when a document with tier below 3, status `N` and the marker's id names it, and it is reported once |
| MarkerCriteria.ProcessHits | criteria/helper/marker_criteria.py:31-49 | the page's markers are collected as a set and each is tagged once, in the order of the two loops |
| MarkerCriteria.AddMarkersEffect | criteria/helper/marker_criteria.py:39-49 | each marker with diseases gains exactly one entry after its old ones; markers without diseases or not on the page are unchanged |
| MarkerCriteria.ProcessHitsEffect | criteria/helper/marker_criteria.py:34-49 | a marker that occurs on the page, however often, gains exactly one entry when it has diseases |
| MarkerCriteria.LaterSectionsAppend | criteria/helper/marker_criteria.py:44-49 | a second section appends after the first section's entry and never overwrites it |
| DataIntegrity.ProcessRowDossier | criteria/data_integrity/test_utils.py:157-180 | missing `Name` or `Primary id` raises `KeyError`; otherwise the row's name, primary id, and the codes of its non-zero score columns in column order |
| DataIntegrity.ProcessRowCriteria | criteria/data_integrity/test_utils.py:183-202 | missing `Name` or `Primary id` raises `KeyError`; otherwise the row's name, primary id, and the columns marked `Yes` in column order |
| DataIntegrity.ColumnTagsMembers | criteria/data_integrity/test_utils.py:171-175 | a tag is collected exactly when some column yields it, at most one per column |
| DataIntegrity.DossierTagsMembers | criteria/data_integrity/test_utils.py:171-175 | a code is a dossier tag exactly when a column ending in `Hs score`, with a score other than `'0'`, has it as the trimmed text before `Hs score` |
| DataIntegrity.YesColumnsMembers | criteria/data_integrity/test_utils.py:195-200 | the tags are exactly the columns whose cell is `Yes`, each once |
| DataIntegrity.CompareDicts | criteria/data_integrity/test_utils.py:228-267 | `qid` or primary id missing raises `KeyError`; a `qid` that is not the old primary id gives nothing; for a matching `qid`, missing old `disease_tags` raise `KeyError`, and otherwise a report is produced exactly when the upper-cased new codes and the old tags differ as sets, and it is the `qid`, the upper-cased new codes and the old tags |
| DataIntegrity.CompareDictsSetwise | criteria/data_integrity/test_utils.py:255-265 | the verdict ignores the order and repetition of the old tags, and the order, repetition and case of the new codes |
| DataIntegrity.MatchingTagsNotReported | criteria/data_integrity/test_utils.py:255-267 | when the upper-cased new codes are exactly the old tags, up to order and repetition, no report is produced |
| OrderedDict.Dedup | criteria/helper/region_criteria.py:45 | a Python set built from a list: the same members, each once |

## Left out

- **Search-store I/O.** Scan-and-scroll, `Search`, the bulk loader, mapping creation and `ElasticSettings` are not modelled. Their results are inputs, and a bulk load is one element of the returned batch list.
- **The page loop of `process_criteria` and `map_and_load`.** They only thread the container through the dispatch and the flush, using a module global.
- **`process_marker_criteria`.** Its scan driver and prints are left out; `MarkerCriteria.ProcessHits` models one page.
- **`get_disease_tags` of each rule class, the final store query of `get_criteria_details`, and `create_criteria_mapping`.** `criteria/helper/study_criteria.py:52`, `criteria/helper/gene_criteria.py:195`, `criteria/helper/region_criteria.py:84` and `criteria/helper/study_criteria.py:75` call `Criteria.get_disease_tags` and `Criteria.get_criteria_details`. `criteria/helper/criteria.py` defines neither, so as written these calls raise `AttributeError`; what they were meant to query is unknown. `create_criteria_mapping` only creates an index.
- **`rsq_with_index_snp` and `marker_is_gwas_significant`.** They use floating-point p-value thresholds and a remote linkage service.
- **The `disease_id` branch of `fetch_overlapping_features`** (`criteria/helper/criteria.py:193-201`). It nests an empty bool query and drops the range filter. What the store then matches is not modelled.
- **Aliasing.** The rules mutate the dict they are given and return it, and the default `result_container={}` is shared between calls. The model passes values and does not capture sharing between callers.
- **Writes to the caller's hit.** The rules also set `feature_doc['_id'] = hit['_id']`; the model does not represent this.
- **Order of `get_gene_docs_by_ensembl_id`'s dict.** The source's dict follows the store's response order (`criteria/helper/gene_criteria.py:189`); the model orders the found ids as requested, which fixes the order in which `cand_gene_in_region` visits the genes.
- **Python set order.** Sets (diseases in `is_region_for_disease`, markers in `process_hits`, genes in `gene_in_region`, `is_an_index_snp`'s result) are modelled in first-occurrence order; CPython's hash order is not modelled.
- **JSON `null` field values.** A field is either absent (`KeyError`) or has a typed value. Missing attributes of a document (`AttributeError`) cannot occur, because the document records are typed.
- **A disease literally named `score` or `disease_tags`.** It is treated as a reserved key by the flush, as in the code; the collision is not explored further.
- **Case mapping.** `lower()` and `upper()` are modelled on ASCII letters only.
- **`configparser`'s `DEFAULT` section inheritance.** Config sections are plain maps.
- **`getattr(m, section)` on a non-rule attribute.** A section naming anything other than a rule is an `UnknownRule` error, not a call of that attribute.
- StudyCriteria.GetCriteriaDetails: `criteria/helper/study_criteria.py:61` calls `Criteria.get_available_criterias('region', config)`, which `criteria/helper/criteria.py` does not define, so as written it raises `AttributeError`. The model stands in `CriteriaManager.get_available_criterias` for the `region` feature, the evidently intended lookup. It returns the index and index types that would be passed to the query at line 75, not that query's result.
- CriteriaManager.ProcessCriterias: one `sections` argument stands for both the configuration given to `process_criterias` and the ini file that `get_available_criterias(feature)` reads itself at `criteria/helper/criteria_manager.py:67`, because no config is passed there. The model assumes the two agree.
- MarkerCriteria.ProcessHits: the per-marker tagging is a parameter, because `MarkerCriteria` has no `tag_feature_to_disease` of its own.
- DataIntegrity.CompareDicts: the disease documents looked up for the `qid` are a parameter (their `code` fields, which the model upper-cases as the source does); only the set comparison is modelled.

## Findings

| source | as written | input that shows it | evidently intended | confidence | as-written member | corrected member |
|---|---|---|---|---|---|---|
| criteria/helper/criteria.py:84, criteria/helper/criteria.py:221 | `(core_diseases, other_diseases) = CriteriaManager.get_available_diseases()` unpacks the result as a pair, but the call without a tier returns the flat list of all 20 codes, so the unpacking raises `ValueError` | any call of `calculate_score` or `tag_feature_to_all_diseases`, e.g. `calculate_score(["AA", "T1D"])` | core = `get_available_diseases(1)`, other = `get_available_diseases(2)`; `["AA", "T1D"]` scores 15 as `criteria/test/test_criteria.py:94-97` expects | high (not executed) | Criteria.UnpackAvailableDiseasesAsWrittenFails | Criteria.CalculateScore |
