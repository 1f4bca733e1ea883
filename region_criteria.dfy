/**
 * The region rules. `is_region_for_disease` walks the study hits of each
 * disease locus of a region, collecting their diseases, and gives up on the
 * whole region as soon as one hit is unconfirmed or has a `tbc` locus.
 */
module RegionCriteria {
  import opened Wrappers
  import opened OrderedDict
  import opened Documents
  import opened Criteria
  import Text

  /** The study-hit fields the scan reads. */
  datatype StudyHit = StudyHit(disease: Disease, status: string, diseaseLocus: string)

  /** The lookups by id the scan makes: disease-locus documents and study-hit documents. */
  datatype RegionSources = RegionSources(locusDocs: string -> seq<LocusDoc>, studyHits: string -> seq<StudyHit>)

  /** Where the scan of the study hits stands. */
  datatype Scan =
    | Collecting(diseases: seq<Disease>)  // all hits so far confirmed; their diseases, each once
    | Unconfirmed                        // a hit with status other than 'N' or a 'tbc' locus was met
    | Missing(hitId: string)             // a hit id with no document: `docs[0]` raises

  /** One study hit of the scan. */
  function ScanStep(s: Scan, hitId: string, sources: RegionSources): Scan {
    if !s.Collecting? then s
    else
      var found := sources.studyHits(hitId);
      if |found| == 0 then Missing(hitId)
      else if found[0].status != "N" then Unconfirmed
      else if Text.Lower(found[0].diseaseLocus) == "tbc" then Unconfirmed
      else Collecting(if found[0].disease in s.diseases then s.diseases else s.diseases + [found[0].disease])
  }

  function ScanAll(s: Scan, hitIds: seq<string>, sources: RegionSources): Scan
    decreases |hitIds|
  {
    if hitIds == [] then s else ScanStep(ScanAll(s, hitIds[..|hitIds| - 1], sources), hitIds[|hitIds| - 1], sources)
  }

  /** The hit ids of some disease-locus documents, in order. */
  function LocusHitIds(docs: seq<LocusDoc>): seq<string>
    decreases |docs|
  {
    if docs == [] then [] else LocusHitIds(docs[..|docs| - 1]) + docs[|docs| - 1].hits
  }

  /** The hit ids the scan visits for the region's disease loci, in order. */
  function RegionHitIds(loci: seq<string>, sources: RegionSources): seq<string>
    decreases |loci|
  {
    if loci == [] then [] else RegionHitIds(loci[..|loci| - 1], sources) + LocusHitIds(sources.locusDocs(loci[|loci| - 1]))
  }

  /** What `is_region_for_disease` returns, or the error it raises. */
  function IsRegionForDiseaseOutcome(hit: Hit, sources: RegionSources, c: Container): Result<Container, Error> {
    var src := hit.source;
    if src.diseaseLoci.None? then Err(KeyError("disease_loci"))
    else if src.regionName.None? then Err(KeyError("region_name"))
    else if src.regionId.None? then Err(KeyError("region_id"))
    else
      match ScanAll(Collecting([]), RegionHitIds(src.diseaseLoci.value, sources), sources)
      case Missing(_) => Err(IndexError("study hit"))
      case Unconfirmed => Ok(c)
      case Collecting(diseases) =>
        Ok(MergeAll(c, PopulateTriples([src.regionId.value], diseases,
                                       GetCriteriaDict(src.regionId.value, src.regionName.value, None))))
  }

  lemma {:induction false} ScanAllConcat(s: Scan, a: seq<string>, b: seq<string>, sources: RegionSources)
    ensures ScanAll(s, a + b, sources) == ScanAll(ScanAll(s, a, sources), b, sources)
    decreases |b|
  {
    if b == [] {
      assert a + b == a;
    } else {
      assert (a + b)[..|a + b| - 1] == a + b[..|b| - 1];
      ScanAllConcat(s, a, b[..|b| - 1], sources);
    }
  }

  /** Once the scan has stopped it stays stopped. */
  lemma {:induction false} ScanAllStopped(s: Scan, b: seq<string>, sources: RegionSources)
    requires !s.Collecting?
    ensures ScanAll(s, b, sources) == s
    decreases |b|
  {
    if b != [] {
      ScanAllStopped(s, b[..|b| - 1], sources);
    }
  }

  lemma {:induction false} LocusHitIdsConcat(a: seq<LocusDoc>, b: seq<LocusDoc>)
    ensures LocusHitIds(a + b) == LocusHitIds(a) + LocusHitIds(b)
    decreases |b|
  {
    if b == [] {
      assert a + b == a;
    } else {
      assert (a + b)[..|a + b| - 1] == a + b[..|b| - 1];
      LocusHitIdsConcat(a, b[..|b| - 1]);
    }
  }

  lemma {:induction false} RegionHitIdsConcat(a: seq<string>, b: seq<string>, sources: RegionSources)
    ensures RegionHitIds(a + b, sources) == RegionHitIds(a, sources) + RegionHitIds(b, sources)
    decreases |b|
  {
    if b == [] {
      assert a + b == a;
    } else {
      assert (a + b)[..|a + b| - 1] == a + b[..|b| - 1];
      RegionHitIdsConcat(a, b[..|b| - 1], sources);
    }
  }

  lemma RegionHitIdsSplit(loci: seq<string>, i: nat, sources: RegionSources)
    requires i < |loci|
    ensures RegionHitIds(loci, sources)
         == RegionHitIds(loci[..i], sources) + LocusHitIds(sources.locusDocs(loci[i])) + RegionHitIds(loci[i + 1..], sources)
  {
    SplitAt(loci, i);
    RegionHitIdsConcat(loci[..i] + [loci[i]], loci[i + 1..], sources);
    RegionHitIdsConcat(loci[..i], [loci[i]], sources);
    assert [loci[i]][..0] == [];
  }

  lemma LocusHitIdsSplit(docs: seq<LocusDoc>, j: nat)
    requires j < |docs|
    ensures LocusHitIds(docs) == LocusHitIds(docs[..j]) + docs[j].hits + LocusHitIds(docs[j + 1..])
  {
    SplitAt(docs, j);
    LocusHitIdsConcat(docs[..j] + [docs[j]], docs[j + 1..]);
    LocusHitIdsConcat(docs[..j], [docs[j]]);
    assert [docs[j]][..0] == [];
  }

  lemma SplitAt<T>(s: seq<T>, i: nat)
    requires i < |s|
    ensures s == s[..i] + [s[i]] + s[i + 1..]
  {
  }

  /** A scan that stops at hit `x` ends that way whatever follows. */
  lemma ScanStopsInside(s0: Scan, before: seq<string>, x: string, rest: seq<string>, sources: RegionSources)
    requires !ScanStep(ScanAll(s0, before, sources), x, sources).Collecting?
    ensures ScanAll(s0, before + [x] + rest, sources) == ScanStep(ScanAll(s0, before, sources), x, sources)
  {
    ScanAllConcat(s0, before + [x], rest, sources);
    assert (before + [x])[..|before + [x]| - 1] == before;
    ScanAllStopped(ScanStep(ScanAll(s0, before, sources), x, sources), rest, sources);
  }

  /** A scan that stops inside `block` ends that way whatever follows. */
  lemma ScanStopsInBlock(s0: Scan, before: seq<string>, block: seq<string>, rest: seq<string>, sources: RegionSources)
    requires !ScanAll(ScanAll(s0, before, sources), block, sources).Collecting?
    ensures ScanAll(s0, before + block + rest, sources) == ScanAll(ScanAll(s0, before, sources), block, sources)
  {
    ScanAllConcat(s0, before + block, rest, sources);
    ScanAllConcat(s0, before, block, sources);
    ScanAllStopped(ScanAll(ScanAll(s0, before, sources), block, sources), rest, sources);
  }

  /**
   * The innermost loop of `is_region_for_disease`, over the hit ids of one
   * disease-locus document: look each study hit up, stop at a missing,
   * unconfirmed or `tbc` one, otherwise add its disease to the set.
   */
  method ScanHitIds(hits: seq<string>, diseases0: seq<Disease>, sources: RegionSources) returns (s: Scan)
    ensures s == ScanAll(Collecting(diseases0), hits, sources)
  {
    var diseases := diseases0;
    for k := 0 to |hits|
      invariant ScanAll(Collecting(diseases0), hits[..k], sources) == Collecting(diseases)
    {
      assert hits[..k + 1][..k] == hits[..k];
      var hitDocs := sources.studyHits(hits[k]);
      if |hitDocs| == 0 {
        SplitAt(hits, k);
        ScanStopsInside(Collecting(diseases0), hits[..k], hits[k], hits[k + 1..], sources);
        return Missing(hits[k]);
      }
      var hitDoc := hitDocs[0];
      var disease := hitDoc.disease;
      var status := hitDoc.status;
      if status != "N" {
        SplitAt(hits, k);
        ScanStopsInside(Collecting(diseases0), hits[..k], hits[k], hits[k + 1..], sources);
        return Unconfirmed;
      }
      var locus := Text.Lower(hitDoc.diseaseLocus);
      if locus == "tbc" {
        SplitAt(hits, k);
        ScanStopsInside(Collecting(diseases0), hits[..k], hits[k], hits[k + 1..], sources);
        return Unconfirmed;
      }
      if disease !in diseases {
        diseases := diseases + [disease];
      }
    }
    assert hits[..|hits|] == hits;
    return Collecting(diseases);
  }

  /**
   * The middle loop of `is_region_for_disease`, over the documents found for
   * one disease locus.
   */
  method ScanLocusDocs(docs: seq<LocusDoc>, diseases0: seq<Disease>, sources: RegionSources) returns (s: Scan)
    ensures s == ScanAll(Collecting(diseases0), LocusHitIds(docs), sources)
  {
    var diseases := diseases0;
    for j := 0 to |docs|
      invariant ScanAll(Collecting(diseases0), LocusHitIds(docs[..j]), sources) == Collecting(diseases)
    {
      assert docs[..j + 1][..j] == docs[..j];
      var scan := ScanHitIds(docs[j].hits, diseases, sources);
      if !scan.Collecting? {
        LocusHitIdsSplit(docs, j);
        ScanStopsInBlock(Collecting(diseases0), LocusHitIds(docs[..j]), docs[j].hits, LocusHitIds(docs[j + 1..]), sources);
        return scan;
      }
      ScanAllConcat(Collecting(diseases0), LocusHitIds(docs[..j]), docs[j].hits, sources);
      diseases := scan.diseases;
    }
    assert docs[..|docs|] == docs;
    return Collecting(diseases);
  }

  /**
   * `is_region_for_disease`: the diseases of the study hits of the region's
   * disease loci, collected as a set, tag the region itself with the region
   * as evidence; an unconfirmed or `tbc` hit leaves the container unchanged.
   */
  method IsRegionForDisease(hit: Hit, sources: RegionSources, c: Container) returns (r: Result<Container, Error>)
    ensures r == IsRegionForDiseaseOutcome(hit, sources, c)
  {
    var featureDoc := hit.source;
    if featureDoc.diseaseLoci.None? {
      return Err(KeyError("disease_loci"));
    }
    if featureDoc.regionName.None? {
      return Err(KeyError("region_name"));
    }
    if featureDoc.regionId.None? {
      return Err(KeyError("region_id"));
    }
    var diseaseLoci := featureDoc.diseaseLoci.value;
    var regionName := featureDoc.regionName.value;
    var regionId := featureDoc.regionId.value;
    var diseases: seq<Disease> := [];
    for i := 0 to |diseaseLoci|
      invariant ScanAll(Collecting([]), RegionHitIds(diseaseLoci[..i], sources), sources) == Collecting(diseases)
    {
      assert diseaseLoci[..i + 1][..i] == diseaseLoci[..i];
      var diseaseLocusHits := sources.locusDocs(diseaseLoci[i]);
      var scan := ScanLocusDocs(diseaseLocusHits, diseases, sources);
      if !scan.Collecting? {
        RegionHitIdsSplit(diseaseLoci, i, sources);
        ScanStopsInBlock(Collecting([]), RegionHitIds(diseaseLoci[..i], sources), LocusHitIds(diseaseLocusHits),
                         RegionHitIds(diseaseLoci[i + 1..], sources), sources);
        if scan.Missing? {
          return Err(IndexError("study hit"));
        }
        return Ok(c);
      }
      ScanAllConcat(Collecting([]), RegionHitIds(diseaseLoci[..i], sources), LocusHitIds(diseaseLocusHits), sources);
      diseases := scan.diseases;
    }
    assert diseaseLoci[..|diseaseLoci|] == diseaseLoci;
    var populated := PopulateContainer(regionId, regionName, None, [regionId], diseases, c);
    return Ok(populated);
  }

  /** The scan never reports a missing hit when every hit id has a document. */
  lemma {:induction false} ScanAllFound(hitIds: seq<string>, sources: RegionSources)
    requires forall i :: 0 <= i < |hitIds| ==> |sources.studyHits(hitIds[i])| > 0
    ensures !ScanAll(Collecting([]), hitIds, sources).Missing?
    decreases |hitIds|
  {
    if hitIds != [] {
      ScanAllFound(hitIds[..|hitIds| - 1], sources);
    }
  }

  /**
   * One unconfirmed or `tbc` hit, with every hit before it found, leaves the
   * whole region untagged, whatever diseases were collected before it and
   * whatever follows.
   */
  lemma UnconfirmedHitAbortsRegion(hitIds: seq<string>, i: nat, sources: RegionSources)
    requires i < |hitIds|
    requires forall j :: 0 <= j < i ==> |sources.studyHits(hitIds[j])| > 0
    requires |sources.studyHits(hitIds[i])| > 0
    requires var h := sources.studyHits(hitIds[i])[0]; h.status != "N" || Text.Lower(h.diseaseLocus) == "tbc"
    ensures ScanAll(Collecting([]), hitIds, sources) == Unconfirmed
  {
    var before := hitIds[..i];
    ScanAllFound(before, sources);
    assert hitIds == before + [hitIds[i]] + hitIds[i + 1..];
    ScanAllConcat(Collecting([]), before + [hitIds[i]], hitIds[i + 1..], sources);
    ScanAllConcat(Collecting([]), before, [hitIds[i]], sources);
    assert [hitIds[i]][..0] == [];
    ScanAllStopped(Unconfirmed, hitIds[i + 1..], sources);
  }

  /**
   * `is_region_for_disease` returns the container it was given as soon as a
   * study hit of the region is unconfirmed or has a `tbc` locus, even when
   * earlier hits already supplied diseases.
   */
  lemma UnconfirmedHitLeavesContainer(hit: Hit, sources: RegionSources, c: Container, i: nat)
    requires hit.source.diseaseLoci.Some? && hit.source.regionName.Some? && hit.source.regionId.Some?
    requires var ids := RegionHitIds(hit.source.diseaseLoci.value, sources);
      && i < |ids|
      && (forall j :: 0 <= j < i ==> |sources.studyHits(ids[j])| > 0)
      && |sources.studyHits(ids[i])| > 0
      && var h := sources.studyHits(ids[i])[0]; h.status != "N" || Text.Lower(h.diseaseLocus) == "tbc"
    ensures IsRegionForDiseaseOutcome(hit, sources, c) == Ok(c)
  {
    UnconfirmedHitAbortsRegion(RegionHitIds(hit.source.diseaseLoci.value, sources), i, sources);
  }

  /** A step that leaves the scan collecting found a confirmed hit and added its disease if new. */
  lemma CollectingStep(s: Scan, hitId: string, sources: RegionSources, diseases: seq<Disease>)
    requires ScanStep(s, hitId, sources) == Collecting(diseases)
    ensures s.Collecting? && |sources.studyHits(hitId)| > 0
    ensures var d := sources.studyHits(hitId)[0].disease;
      diseases == if d in s.diseases then s.diseases else s.diseases + [d]
  {
  }

  /** A completed scan collected no disease twice. */
  lemma {:induction false} ScanDistinct(hitIds: seq<string>, sources: RegionSources, diseases: seq<Disease>)
    requires ScanAll(Collecting([]), hitIds, sources) == Collecting(diseases)
    ensures Distinct(diseases)
    decreases |hitIds|
  {
    if hitIds != [] {
      var s := ScanAll(Collecting([]), hitIds[..|hitIds| - 1], sources);
      CollectingStep(s, hitIds[|hitIds| - 1], sources, diseases);
      ScanDistinct(hitIds[..|hitIds| - 1], sources, s.diseases);
    }
  }

  /** A completed scan found a document for every hit. */
  lemma {:induction false} ScanFound(hitIds: seq<string>, sources: RegionSources, diseases: seq<Disease>, i: nat)
    requires ScanAll(Collecting([]), hitIds, sources) == Collecting(diseases)
    requires i < |hitIds|
    ensures |sources.studyHits(hitIds[i])| > 0
    decreases |hitIds|
  {
    var last := |hitIds| - 1;
    var s := ScanAll(Collecting([]), hitIds[..last], sources);
    CollectingStep(s, hitIds[last], sources, diseases);
    if i < last {
      ScanFound(hitIds[..last], sources, s.diseases, i);
    }
  }

  /** A completed scan collected exactly the diseases of the hits' documents. */
  lemma {:induction false} ScanDiseases(hitIds: seq<string>, sources: RegionSources, diseases: seq<Disease>, d: Disease)
    requires ScanAll(Collecting([]), hitIds, sources) == Collecting(diseases)
    ensures forall i :: 0 <= i < |hitIds| ==> |sources.studyHits(hitIds[i])| > 0
    ensures d in diseases <==> exists i :: 0 <= i < |hitIds| && sources.studyHits(hitIds[i])[0].disease == d
    decreases |hitIds|
  {
    forall i | 0 <= i < |hitIds| ensures |sources.studyHits(hitIds[i])| > 0 {
      ScanFound(hitIds, sources, diseases, i);
    }
    if hitIds != [] {
      var last := |hitIds| - 1;
      var init := hitIds[..last];
      var s := ScanAll(Collecting([]), init, sources);
      CollectingStep(s, hitIds[last], sources, diseases);
      ScanDiseases(init, sources, s.diseases, d);
      if exists i :: 0 <= i < |hitIds| && sources.studyHits(hitIds[i])[0].disease == d {
        var i :| 0 <= i < |hitIds| && sources.studyHits(hitIds[i])[0].disease == d;
        if i < last {
          assert sources.studyHits(init[i])[0].disease == d;
        }
      }
      if d in s.diseases {
        var i :| 0 <= i < |init| && sources.studyHits(init[i])[0].disease == d;
        assert sources.studyHits(hitIds[i])[0].disease == d;
      }
    }
  }

  /**
   * A completed scan found and confirmed every hit, and collected each of
   * their diseases exactly once.
   */
  lemma ScanCollects(hitIds: seq<string>, sources: RegionSources, diseases: seq<Disease>)
    requires ScanAll(Collecting([]), hitIds, sources) == Collecting(diseases)
    ensures Distinct(diseases)
    ensures forall i :: 0 <= i < |hitIds| ==> |sources.studyHits(hitIds[i])| > 0
    ensures forall d :: d in diseases <==> exists i :: 0 <= i < |hitIds| && sources.studyHits(hitIds[i])[0].disease == d
  {
    ScanDistinct(hitIds, sources, diseases);
    forall i | 0 <= i < |hitIds| ensures |sources.studyHits(hitIds[i])| > 0 {
      ScanFound(hitIds, sources, diseases, i);
    }
    forall d ensures d in diseases <==> exists i :: 0 <= i < |hitIds| && sources.studyHits(hitIds[i])[0].disease == d {
      ScanDiseases(hitIds, sources, diseases, d);
    }
  }

  /**
   * When the region is tagged, only the region itself gains evidence: each
   * collected disease gets `{fid: region_id, fname: region_name}`, and every
   * other feature keeps its row.
   */
  lemma IsRegionForDiseaseEffect(hit: Hit, sources: RegionSources, c: Container, diseases: seq<Disease>,
                                 f: FeatureKey, d: Disease)
    requires hit.source.diseaseLoci.Some? && hit.source.regionName.Some? && hit.source.regionId.Some?
    requires ScanAll(Collecting([]), RegionHitIds(hit.source.diseaseLoci.value, sources), sources) == Collecting(diseases)
    ensures var src := hit.source;
      var r := IsRegionForDiseaseOutcome(hit, sources, c);
      && r.Ok?
      && (f != Some(src.regionId.value) ==> RowOf(r.value, f) == RowOf(c, f))
      && ListOf(r.value, f, d) ==
           if f == Some(src.regionId.value) && d in diseases
           then AddNew(ListOf(c, f, d), Evidence(src.regionId.value, src.regionName.value, None))
           else ListOf(c, f, d)
  {
    var src := hit.source;
    var e := GetCriteriaDict(src.regionId.value, src.regionName.value, None);
    var ts := PopulateTriples([src.regionId.value], diseases, e);
    PopulateEffect(c, [src.regionId.value], diseases, e, f, d);
    if f != Some(src.regionId.value) {
      PopulateTriplesMembers([src.regionId.value], diseases, e);
      forall i | 0 <= i < |ts| ensures ts[i].feature != f {
        assert ts[i] in ts;
      }
      MergeAllUntouched(c, ts, f);
    }
  }

  /** The region rule named `section`, applied; a section naming no rule is an error. */
  function RegionRuleOutcome(section: string, hit: Hit, sources: RegionSources, c: Container): Result<Container, Error> {
    if section == "is_region_in_mhc" then Ok(MergeAll(c, FanOutTriples(Some(hit.id), AllDiseases())))
    else if section == "is_region_for_disease" then IsRegionForDiseaseOutcome(hit, sources, c)
    else Err(UnknownRule(section))
  }

  /** `RegionCriteria.tag_feature_to_disease(hit, section, ...)`: call the rule named by the section. */
  method TagFeatureToDisease(hit: Hit, section: string, sources: RegionSources, c: Container)
    returns (r: Result<Container, Error>)
    ensures r == RegionRuleOutcome(section, hit, sources, c)
    ensures section != "is_region_in_mhc" && section != "is_region_for_disease" ==> r == Err(UnknownRule(section))
  {
    if section == "is_region_in_mhc" {
      // `is_region_in_mhc`: the all-diseases fan-out of the hit's id
      var tagged := TagFeatureToAllDiseases(Some(hit.id), c);
      r := Ok(tagged);
    } else if section == "is_region_for_disease" {
      r := IsRegionForDisease(hit, sources, c);
    } else {
      r := Err(UnknownRule(section));
    }
  }
}
