/**
 * The gene rules: each takes one scanned hit and the caller's container and
 * returns the container with the gene tags the hit supports. Search-store
 * lookups and the region helpers are given as `GeneSources`.
 */
module GeneCriteria {
  import opened Wrappers
  import opened OrderedDict
  import opened Documents
  import opened Criteria
  import Text

  /** The gene-index fields a rule reads. */
  datatype GeneDoc = GeneDoc(chromosome: string, start: int, stop: int)

  /** A region as the region helper turns study hits into regions. */
  datatype Region = Region(regionId: string, regionName: string)

  /** A region document after padding: identity, padded span and its diseases (`tags['disease']`). */
  datatype PaddedRegion = PaddedRegion(regionId: string, regionName: string, seqid: string, start: int, end: int,
                                       diseases: seq<Disease>)

  /**
   * What the gene rules look up: the gene index by Ensembl id, the study hits
   * of the region index, the helper that groups hits into regions, region
   * padding (`None` when it raises) and the gene index's range search.
   */
  datatype GeneSources = GeneSources(
    geneIndex: map<string, GeneDoc>,
    studyHits: seq<LocatedDoc>,
    hitsToRegions: seq<LocatedDoc> -> seq<Region>,
    padRegion: Hit -> Option<PaddedRegion>,
    genesInRange: (string, int, int) -> seq<string>)

  /** The build the region index is searched in. */
  const RegionBuild := "38"

  // ---------------------------------------------------------------------------
  // cand_gene_in_study

  /** The study evidence `{fid: study_id, fname: first author's name and initials}`. */
  function StudyEvidence(studyId: string, author: Author): Evidence {
    GetCriteriaDict(studyId, author.name + " " + author.initials, None)
  }

  /** What `cand_gene_in_study` returns, or the error it raises reading the hit. */
  function CandGeneInStudyOutcome(hit: Hit, c: Container): Result<Container, Error> {
    var src := hit.source;
    if src.genes.None? then Err(KeyError("genes"))
    else if src.diseases.None? then Err(KeyError("diseases"))
    else if src.studyId.None? then Err(KeyError("study_id"))
    else if src.authors.None? then Err(KeyError("authors"))
    else if |src.authors.value| == 0 then Err(IndexError("authors"))
    else Ok(MergeAll(c, PopulateTriples(src.genes.value, src.diseases.value,
                                        StudyEvidence(src.studyId.value, src.authors.value[0]))))
  }

  /**
   * `cand_gene_in_study`: every gene of the study is tagged with every disease
   * of the study, with the study id and first author as evidence.
   */
  method CandGeneInStudy(hit: Hit, c: Container) returns (r: Result<Container, Error>)
    ensures r == CandGeneInStudyOutcome(hit, c)
    ensures r.Ok? ==>
      var src := hit.source;
      var e := Evidence(src.studyId.value, src.authors.value[0].name + " " + src.authors.value[0].initials, None);
      forall f, d :: ListOf(r.value, f, d) ==
        if f.Some? && f.value in src.genes.value && d in src.diseases.value then AddNew(ListOf(c, f, d), e)
        else ListOf(c, f, d)
  {
    var featureDoc := hit.source;
    if featureDoc.genes.None? {
      return Err(KeyError("genes"));
    }
    var genes := featureDoc.genes.value;
    if featureDoc.diseases.None? {
      return Err(KeyError("diseases"));
    }
    var diseases := featureDoc.diseases.value;
    if featureDoc.studyId.None? {
      return Err(KeyError("study_id"));
    }
    var studyId := featureDoc.studyId.value;
    if featureDoc.authors.None? {
      return Err(KeyError("authors"));
    }
    if |featureDoc.authors.value| == 0 {
      return Err(IndexError("authors"));
    }
    var author := featureDoc.authors.value[0];
    var firstAuthor := author.name + " " + author.initials;
    var populated := PopulateContainer(studyId, firstAuthor, None, genes, diseases, c);
    forall f, d ensures ListOf(populated, f, d) ==
        if f.Some? && f.value in genes && d in diseases then AddNew(ListOf(c, f, d), StudyEvidence(studyId, author))
        else ListOf(c, f, d)
    {
      PopulateEffect(c, genes, diseases, StudyEvidence(studyId, author), f, d);
    }
    return Ok(populated);
  }

  /**
   * Running a second study over a container only adds: the earlier evidence
   * stays in place and the new study's evidence follows it.
   */
  lemma CandGeneInStudyOnlyAdds(hit: Hit, c: Container, f: FeatureKey, d: Disease)
    requires CandGeneInStudyOutcome(hit, c).Ok?
    ensures IsPrefix(ListOf(c, f, d), ListOf(CandGeneInStudyOutcome(hit, c).value, f, d))
    ensures f in c.vals ==> f in CandGeneInStudyOutcome(hit, c).value.vals
  {
    var src := hit.source;
    var ts := PopulateTriples(src.genes.value, src.diseases.value, StudyEvidence(src.studyId.value, src.authors.value[0]));
    MergeAllOnlyAdds(c, ts, f, d);
    MergeAllKeys(c, ts);
  }

  // ---------------------------------------------------------------------------
  // get_gene_docs_by_ensembl_id

  /** `get_gene_docs_by_ensembl_id(ens_ids)`: the documents of the requested ids the index holds, by id. */
  function GetGeneDocsByEnsemblId(ensIds: seq<string>, geneIndex: map<string, GeneDoc>): (r: ODict<string, GeneDoc>)
    ensures r.Valid()
    ensures forall g :: g in r.vals <==> g in ensIds && g in geneIndex
    ensures forall g :: g in r.vals ==> r.vals[g] == geneIndex[g]
    decreases |ensIds|
  {
    if ensIds == [] then Empty()
    else
      var rest := GetGeneDocsByEnsemblId(ensIds[..|ensIds| - 1], geneIndex);
      var g := ensIds[|ensIds| - 1];
      assert ensIds == ensIds[..|ensIds| - 1] + [g];
      if g in geneIndex then rest.Put(g, geneIndex[g]) else rest
  }

  // ---------------------------------------------------------------------------
  // cand_gene_in_region

  /** The regions a gene overlaps: the overlapping study hits in build 38, grouped into regions. */
  function GeneRegions(src: GeneSources, doc: GeneDoc): seq<Region> {
    src.hitsToRegions(FetchOverlappingFeatures(src.studyHits, RegionBuild, doc.chromosome, doc.start, doc.stop))
  }

  function RegionEvidence(region: Region): Evidence {
    GetCriteriaDict(region.regionId, region.regionName, None)
  }

  /** The merges for one gene: the disease, once per overlapping region. */
  function GeneRegionTriples(gene: string, regions: seq<Region>, disease: Disease): seq<Triple>
    decreases |regions|
  {
    if regions == [] then []
    else
      GeneRegionTriples(gene, regions[..|regions| - 1], disease)
        + [Triple(Some(gene), disease, RegionEvidence(regions[|regions| - 1]))]
  }

  /** The merges for the genes of `genes` in order, each with its regions. */
  function RegionHitTriples(genes: seq<string>, geneDict: ODict<string, GeneDoc>, src: GeneSources, disease: Disease)
    : seq<Triple>
    decreases |genes|
  {
    if genes == [] then []
    else
      var gene := genes[|genes| - 1];
      RegionHitTriples(genes[..|genes| - 1], geneDict, src, disease)
        + (if gene in geneDict.vals then GeneRegionTriples(gene, GeneRegions(src, geneDict.vals[gene]), disease) else [])
  }

  /** Why `cand_gene_in_region` returns the container untouched before reading `disease_locus`. */
  predicate SkipsRegionHit(src: Source) {
    src.disease.None? || src.status.None? || src.status.value != "N"
  }

  /** What `cand_gene_in_region` returns, or the error it raises. */
  function CandGeneInRegionOutcome(hit: Hit, sources: GeneSources, c: Container): Result<Container, Error> {
    var src := hit.source;
    if SkipsRegionHit(src) then Ok(c)
    else if src.diseaseLocus.None? then Err(KeyError("disease_locus"))
    else if Text.Lower(src.diseaseLocus.value) == "tbc" then Ok(c)
    else
      var genes := src.genes.GetOr([]);
      var geneDict := GetGeneDocsByEnsemblId(genes, sources.geneIndex);
      Ok(MergeAll(c, RegionHitTriples(geneDict.keys, geneDict, sources, src.disease.value)))
  }

  /**
   * `cand_gene_in_region`: for a confirmed (`status == 'N'`) hit whose locus is
   * known, each gene of the hit is tagged with the hit's disease once per
   * region its position overlaps, with the region as evidence.
   */
  method CandGeneInRegion(hit: Hit, sources: GeneSources, c: Container) returns (r: Result<Container, Error>)
    ensures r == CandGeneInRegionOutcome(hit, sources, c)
  {
    var featureDoc := hit.source;
    var genes: seq<string> := [];
    if featureDoc.genes.Some? {
      genes := featureDoc.genes.value;
    }
    if featureDoc.disease.None? || featureDoc.status.None? {
      return Ok(c);
    }
    var disease := featureDoc.disease.value;
    var status := featureDoc.status.value;
    if status != "N" {
      return Ok(c);
    }
    if featureDoc.diseaseLocus.None? {
      return Err(KeyError("disease_locus"));
    }
    var diseaseLoci := Text.Lower(featureDoc.diseaseLocus.value);
    if diseaseLoci == "tbc" {
      return Ok(c);
    }
    var geneDict := GetGeneDocsByEnsemblId(genes, sources.geneIndex);
    var container := TagGenesWithRegions(geneDict, sources, disease, c);
    return Ok(container);
  }

  /** The outer loop of `cand_gene_in_region`: for each gene found, its position's overlapping regions. */
  method TagGenesWithRegions(geneDict: ODict<string, GeneDoc>, sources: GeneSources, disease: Disease, c: Container)
    returns (r: Container)
    requires geneDict.Valid()
    ensures r == MergeAll(c, RegionHitTriples(geneDict.keys, geneDict, sources, disease))
  {
    r := c;
    for i := 0 to |geneDict.keys|
      invariant r == MergeAll(c, RegionHitTriples(geneDict.keys[..i], geneDict, sources, disease))
    {
      var gene := geneDict.keys[i];
      assert geneDict.keys[..i + 1][..i] == geneDict.keys[..i];
      assert gene in geneDict.vals;
      var geneDoc := geneDict.vals[gene];
      var overlapping := FetchOverlappingFeatures(sources.studyHits, RegionBuild, geneDoc.chromosome, geneDoc.start, geneDoc.stop);
      var regionDocs := sources.hitsToRegions(overlapping);
      MergeAllConcat(c, RegionHitTriples(geneDict.keys[..i], geneDict, sources, disease), GeneRegionTriples(gene, regionDocs, disease));
      r := TagGeneWithRegions(gene, regionDocs, disease, r);
    }
    assert geneDict.keys[..|geneDict.keys|] == geneDict.keys;
  }

  /** One region of the gene's loop: a population of the gene with the disease is one more merge. */
  lemma GeneRegionStep(c: Container, gene: string, regionDocs: seq<Region>, j: nat, disease: Disease)
    requires j < |regionDocs|
    ensures var region := regionDocs[j];
      MergeAll(c, GeneRegionTriples(gene, regionDocs[..j + 1], disease))
        == MergeAll(MergeAll(c, GeneRegionTriples(gene, regionDocs[..j], disease)),
                    PopulateTriples([gene], [disease], GetCriteriaDict(region.regionId, region.regionName, None)))
  {
    var t := Triple(Some(gene), disease, RegionEvidence(regionDocs[j]));
    assert regionDocs[..j + 1][..j] == regionDocs[..j];
    PopulateSingle(gene, disease, RegionEvidence(regionDocs[j]));
    MergeAllSnoc(c, GeneRegionTriples(gene, regionDocs[..j], disease), t);
    assert [t][..0] == [];
  }

  /** The inner loop of `cand_gene_in_region`: one population per overlapping region of a gene. */
  method TagGeneWithRegions(gene: string, regionDocs: seq<Region>, disease: Disease, c: Container) returns (r: Container)
    ensures r == MergeAll(c, GeneRegionTriples(gene, regionDocs, disease))
  {
    r := c;
    for j := 0 to |regionDocs|
      invariant r == MergeAll(c, GeneRegionTriples(gene, regionDocs[..j], disease))
    {
      var regionDoc := regionDocs[j];
      GeneRegionStep(c, gene, regionDocs, j, disease);
      r := PopulateContainer(regionDoc.regionId, regionDoc.regionName, None, [gene], [disease], r);
    }
    assert regionDocs[..|regionDocs|] == regionDocs;
  }

  lemma {:induction false} GeneRegionTriplesMembers(gene: string, regions: seq<Region>, disease: Disease)
    ensures forall t :: t in GeneRegionTriples(gene, regions, disease) <==>
              t.feature == Some(gene) && t.disease == disease && exists region :: region in regions && t.evidence == RegionEvidence(region)
    decreases |regions|
  {
    if regions != [] {
      var init := regions[..|regions| - 1];
      GeneRegionTriplesMembers(gene, init, disease);
      assert regions == init + [regions[|regions| - 1]];
    }
  }

  /** The merges of a region hit name only genes of the lookup and only the hit's disease; each gene gets each of its regions. */
  lemma {:induction false} RegionHitTriplesMembers(genes: seq<string>, geneDict: ODict<string, GeneDoc>, src: GeneSources, disease: Disease)
    ensures forall t :: t in RegionHitTriples(genes, geneDict, src, disease) ==>
              && t.disease == disease && t.feature.Some? && t.feature.value in genes && t.feature.value in geneDict.vals
              && exists region :: region in GeneRegions(src, geneDict.vals[t.feature.value]) && t.evidence == RegionEvidence(region)
    ensures forall g, region :: g in genes && g in geneDict.vals && region in GeneRegions(src, geneDict.vals[g]) ==>
              Triple(Some(g), disease, RegionEvidence(region)) in RegionHitTriples(genes, geneDict, src, disease)
    decreases |genes|
  {
    if genes != [] {
      var init := genes[..|genes| - 1];
      var gene := genes[|genes| - 1];
      RegionHitTriplesMembers(init, geneDict, src, disease);
      assert genes == init + [gene];
      if gene in geneDict.vals {
        GeneRegionTriplesMembers(gene, GeneRegions(src, geneDict.vals[gene]), disease);
      }
    }
  }

  /** The evidence records of some regions, in order. */
  function RegionEvidences(regions: seq<Region>): (r: seq<Evidence>)
    ensures |r| == |regions|
    ensures forall i :: 0 <= i < |regions| ==> r[i] == RegionEvidence(regions[i])
  {
    seq(|regions|, i requires 0 <= i < |regions| => RegionEvidence(regions[i]))
  }

  /** One gene's merges send its regions' records, in region order, to its list for the disease, and nothing elsewhere. */
  lemma {:induction false} GeneRegionStream(gene: string, regions: seq<Region>, disease: Disease, f: FeatureKey, d: Disease)
    ensures Stream(GeneRegionTriples(gene, regions, disease), f, d) ==
              if f == Some(gene) && d == disease then RegionEvidences(regions) else []
  {
    if f == Some(gene) && d == disease {
      GeneRegionStreamOwn(gene, regions, disease);
    } else {
      GeneRegionTriplesMembers(gene, regions, disease);
      StreamEmpty(GeneRegionTriples(gene, regions, disease), f, d);
    }
  }

  lemma {:induction false} GeneRegionStreamOwn(gene: string, regions: seq<Region>, disease: Disease)
    ensures Stream(GeneRegionTriples(gene, regions, disease), Some(gene), disease) == RegionEvidences(regions)
    decreases |regions|
  {
    if regions != [] {
      var init := regions[..|regions| - 1];
      GeneRegionStreamOwn(gene, init, disease);
      var ts := GeneRegionTriples(gene, init, disease);
      var e := RegionEvidence(regions[|regions| - 1]);
      var t := Triple(Some(gene), disease, e);
      assert GeneRegionTriples(gene, regions, disease) == ts + [t];
      assert (ts + [t])[..|ts|] == ts;
      assert Stream(ts + [t], Some(gene), disease) == Stream(ts, Some(gene), disease) + [e];
      assert RegionEvidences(regions) == RegionEvidences(init) + [e];
    }
  }

  /**
   * Over distinct genes, the rule's merges send to a gene's list for the
   * disease exactly its overlapping regions' records, in order, when the
   * gene was found, and nothing otherwise.
   */
  lemma {:induction false} RegionHitStream(genes: seq<string>, geneDict: ODict<string, GeneDoc>, src: GeneSources,
                                           disease: Disease, g: string)
    requires Distinct(genes)
    ensures Stream(RegionHitTriples(genes, geneDict, src, disease), Some(g), disease) ==
              if g in genes && g in geneDict.vals then RegionEvidences(GeneRegions(src, geneDict.vals[g])) else []
    decreases |genes|
  {
    if genes != [] {
      var init := genes[..|genes| - 1];
      var gene := genes[|genes| - 1];
      assert genes == init + [gene];
      assert Distinct(init);
      RegionHitStream(init, geneDict, src, disease, g);
      var block := if gene in geneDict.vals then GeneRegionTriples(gene, GeneRegions(src, geneDict.vals[gene]), disease) else [];
      StreamConcat(RegionHitTriples(init, geneDict, src, disease), block, Some(g), disease);
      if gene in geneDict.vals {
        GeneRegionStream(gene, GeneRegions(src, geneDict.vals[gene]), disease, Some(g), disease);
      }
      if gene == g {
        assert g !in init;
      }
    }
  }

  /** A hit that is missing its disease or status, is not confirmed, or whose locus is `tbc`, changes nothing. */
  lemma CandGeneInRegionSkips(hit: Hit, sources: GeneSources, c: Container)
    requires SkipsRegionHit(hit.source)
      || (hit.source.diseaseLocus.Some? && Text.Lower(hit.source.diseaseLocus.value) == "tbc")
    ensures CandGeneInRegionOutcome(hit, sources, c) == Ok(c)
  {
  }

  /**
   * A confirmed hit tags each of its genes the index knows with the hit's
   * disease: that list becomes the old one followed by the records of the
   * gene's overlapping regions, in order, each unless already present. No
   * other disease list changes; a gene the index lacks, or one that overlaps
   * no region, keeps its row.
   */
  lemma CandGeneInRegionEffect(hit: Hit, sources: GeneSources, c: Container, f: FeatureKey, d: Disease)
    requires CandGeneInRegionOutcome(hit, sources, c).Ok? && !SkipsRegionHit(hit.source)
    requires Text.Lower(hit.source.diseaseLocus.value) != "tbc"
    ensures var r := CandGeneInRegionOutcome(hit, sources, c).value;
      var genes := hit.source.genes.GetOr([]);
      var found := f.Some? && f.value in genes && f.value in sources.geneIndex;
      && (d != hit.source.disease.value ==> ListOf(r, f, d) == ListOf(c, f, d))
      && (!found ==> RowOf(r, f) == RowOf(c, f))
      && (found && d == hit.source.disease.value ==>
            ListOf(r, f, d) == AppendNew(ListOf(c, f, d), RegionEvidences(GeneRegions(sources, sources.geneIndex[f.value]))))
      && (found && GeneRegions(sources, sources.geneIndex[f.value]) == [] ==> RowOf(r, f) == RowOf(c, f))
  {
    var src := hit.source;
    var disease := src.disease.value;
    var genes := src.genes.GetOr([]);
    var geneDict := GetGeneDocsByEnsemblId(genes, sources.geneIndex);
    var ts := RegionHitTriples(geneDict.keys, geneDict, sources, disease);
    RegionHitTriplesMembers(geneDict.keys, geneDict, sources, disease);
    assert forall g :: g in geneDict.keys <==> g in geneDict.vals;
    if d != disease {
      MergeAllOtherPair(c, ts, f, d);
    }
    if f.None? || f.value !in genes || f.value !in sources.geneIndex
       || GeneRegions(sources, sources.geneIndex[f.value]) == [] {
      forall i | 0 <= i < |ts| ensures ts[i].feature != f {
        assert ts[i] in ts;
      }
      MergeAllUntouched(c, ts, f);
    }
    if f.Some? && f.value in genes && f.value in sources.geneIndex && d == disease {
      MergeAllList(c, ts, f, d);
      RegionHitStream(geneDict.keys, geneDict, sources, disease, f.value);
    }
  }

  // ---------------------------------------------------------------------------
  // gene_in_region

  /** The genes the range search finds in a padded region, each once. */
  function GenesInRegion(sources: GeneSources, p: PaddedRegion): seq<string> {
    Dedup(sources.genesInRange(p.seqid, p.start, p.end))
  }

  /** What `gene_in_region` returns. */
  function GeneInRegionOutcome(hit: Hit, sources: GeneSources, c: Container): Container {
    match sources.padRegion(hit)
    case None => c
    case Some(p) => MergeAll(c, PopulateTriples(GenesInRegion(sources, p), p.diseases,
                                               GetCriteriaDict(p.regionId, p.regionName, None)))
  }

  /**
   * `gene_in_region`: a region that cannot be padded changes nothing;
   * otherwise every gene in the padded span is tagged with every disease of
   * the region, with the region as evidence.
   */
  method GeneInRegion(hit: Hit, sources: GeneSources, c: Container) returns (r: Container)
    ensures r == GeneInRegionOutcome(hit, sources, c)
  {
    var padded := sources.padRegion(hit);
    if padded.None? {
      return c;
    }
    var p := padded.value;
    var resultDocs := sources.genesInRange(p.seqid, p.start, p.end);
    var genes: seq<string> := [];
    for i := 0 to |resultDocs|
      invariant genes == Dedup(resultDocs[..i])
    {
      assert resultDocs[..i + 1][..i] == resultDocs[..i];
      if resultDocs[i] !in genes {
        genes := genes + [resultDocs[i]];
      }
    }
    assert resultDocs[..|resultDocs|] == resultDocs;
    r := PopulateContainer(p.regionId, p.regionName, None, genes, p.diseases, c);
  }

  /**
   * After `gene_in_region`, a gene of the padded span has the region's record
   * under each region disease (added once), and every other list is unchanged.
   */
  lemma GeneInRegionEffect(hit: Hit, sources: GeneSources, c: Container, f: FeatureKey, d: Disease)
    requires sources.padRegion(hit).Some?
    ensures var p := sources.padRegion(hit).value;
      ListOf(GeneInRegionOutcome(hit, sources, c), f, d) ==
        if f.Some? && f.value in sources.genesInRange(p.seqid, p.start, p.end) && d in p.diseases
        then AddNew(ListOf(c, f, d), Evidence(p.regionId, p.regionName, None))
        else ListOf(c, f, d)
  {
    var p := sources.padRegion(hit).value;
    PopulateEffect(c, GenesInRegion(sources, p), p.diseases, GetCriteriaDict(p.regionId, p.regionName, None), f, d);
  }

  // ---------------------------------------------------------------------------
  // fetch_disease_locus

  /** The documents kept for the queried locus ids: the single document of each id that has exactly one. */
  function KeptLoci(ids: seq<string>, lookup: string -> seq<LocusDoc>): seq<LocusDoc>
    decreases |ids|
  {
    if ids == [] then []
    else
      var found := lookup(ids[|ids| - 1]);
      KeptLoci(ids[..|ids| - 1], lookup) + (if |found| == 1 then [found[0]] else [])
  }

  /**
   * `fetch_disease_locus(hits_docs)` over the `disease_locus` of each hit:
   * each distinct locus id is looked up once, in first-occurrence order, and
   * its document kept only when exactly one is found.
   */
  method FetchDiseaseLocus(hitLoci: seq<string>, lookup: string -> seq<LocusDoc>)
    returns (diseaseLocDocs: seq<LocusDoc>, queried: seq<string>)
    ensures queried == Dedup(hitLoci)
    ensures Distinct(queried) && forall id :: id in queried <==> id in hitLoci
    ensures diseaseLocDocs == KeptLoci(queried, lookup)
  {
    diseaseLocDocs := [];
    queried := [];
    for i := 0 to |hitLoci|
      invariant queried == Dedup(hitLoci[..i])
      invariant diseaseLocDocs == KeptLoci(queried, lookup)
    {
      assert hitLoci[..i + 1][..i] == hitLoci[..i];
      var locusId := hitLoci[i];
      if locusId !in queried {
        assert (queried + [locusId])[..|queried|] == queried;
        queried := queried + [locusId];
        var diseaseLoc := lookup(locusId);
        if |diseaseLoc| == 1 {
          diseaseLocDocs := diseaseLocDocs + [diseaseLoc[0]];
        }
      }
    }
    assert hitLoci[..|hitLoci|] == hitLoci;
  }

  /** A document is kept exactly when it is the only one found for some queried id. */
  lemma {:induction false} KeptLociMembers(ids: seq<string>, lookup: string -> seq<LocusDoc>)
    ensures forall doc :: doc in KeptLoci(ids, lookup) <==> exists id :: id in ids && lookup(id) == [doc]
    ensures |KeptLoci(ids, lookup)| <= |ids|
    decreases |ids|
  {
    if ids != [] {
      var init := ids[..|ids| - 1];
      var id := ids[|ids| - 1];
      KeptLociMembers(init, lookup);
      assert ids == init + [id];
      var found := lookup(id);
      if |found| == 1 {
        assert found == [found[0]];
      }
    }
  }

  // ---------------------------------------------------------------------------
  // tag_feature_to_disease

  /** The gene rule named `section`, applied; a section naming no rule is an error. */
  function GeneRuleOutcome(section: string, hit: Hit, sources: GeneSources, c: Container): Result<Container, Error> {
    if section == "cand_gene_in_study" then CandGeneInStudyOutcome(hit, c)
    else if section == "cand_gene_in_region" then CandGeneInRegionOutcome(hit, sources, c)
    else if section == "is_gene_in_mhc" then Ok(MergeAll(c, FanOutTriples(Some(hit.id), AllDiseases())))
    else if section == "gene_in_region" then Ok(GeneInRegionOutcome(hit, sources, c))
    else Err(UnknownRule(section))
  }

  /** `GeneCriteria.tag_feature_to_disease(hit, section, ...)`: call the rule named by the section. */
  method TagFeatureToDisease(hit: Hit, section: string, sources: GeneSources, c: Container)
    returns (r: Result<Container, Error>)
    ensures r == GeneRuleOutcome(section, hit, sources, c)
    ensures section !in ["cand_gene_in_study", "cand_gene_in_region", "is_gene_in_mhc", "gene_in_region"] ==>
              r == Err(UnknownRule(section))
  {
    if section == "cand_gene_in_study" {
      r := CandGeneInStudy(hit, c);
    } else if section == "cand_gene_in_region" {
      r := CandGeneInRegion(hit, sources, c);
    } else if section == "is_gene_in_mhc" {
      // `is_gene_in_mhc`: the all-diseases fan-out of the hit's id
      var tagged := TagFeatureToAllDiseases(Some(hit.id), c);
      r := Ok(tagged);
    } else if section == "gene_in_region" {
      var tagged := GeneInRegion(hit, sources, c);
      r := Ok(tagged);
    } else {
      r := Err(UnknownRule(section));
    }
  }
}
