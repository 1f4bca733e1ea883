/**
 * The marker rules: `is_an_index_snp` finds the diseases for which a marker
 * is the index SNP of a confirmed tier-1 or tier-2 region, and `process_hits`
 * accumulates, per marker, one entry for each section that tagged it.
 */
module MarkerCriteria {
  import opened Wrappers
  import opened OrderedDict

  type Disease = string

  /** `feature_src`: a hit document (its `_id` is used) or a plain marker id. */
  datatype FeatureSrc = HitDoc(id: string) | MarkerId(id: string)

  /** The fields of a region-index hit document that `is_an_index_snp` reads. */
  datatype RegionHitDoc = RegionHitDoc(tier: int, status: string, marker: string, disease: Disease)

  /** The marker id the rule looks for. */
  function FeatureId(src: FeatureSrc): string {
    match src
    case HitDoc(id) => id
    case MarkerId(id) => id
  }

  /** A hit document confirms the marker as index SNP: tier below 3, status 'N', the same marker. */
  predicate Confirms(doc: RegionHitDoc, featureId: string) {
    doc.tier < 3 && doc.status == "N" && doc.marker == featureId
  }

  /** The diseases of the confirming documents, in document order, repeats kept. */
  function ConfirmedDiseases(featureId: string, docs: seq<RegionHitDoc>): seq<Disease>
    decreases |docs|
  {
    if docs == [] then []
    else
      var doc := docs[|docs| - 1];
      ConfirmedDiseases(featureId, docs[..|docs| - 1]) + (if Confirms(doc, featureId) then [doc.disease] else [])
  }

  lemma {:induction false} ConfirmedDiseasesMembers(featureId: string, docs: seq<RegionHitDoc>)
    ensures forall d :: d in ConfirmedDiseases(featureId, docs) <==>
              exists i :: 0 <= i < |docs| && Confirms(docs[i], featureId) && docs[i].disease == d
    decreases |docs|
  {
    if docs != [] {
      var init := docs[..|docs| - 1];
      ConfirmedDiseasesMembers(featureId, init);
      forall d ensures d in ConfirmedDiseases(featureId, docs) <==>
                 exists i :: 0 <= i < |docs| && Confirms(docs[i], featureId) && docs[i].disease == d {
        if exists i :: 0 <= i < |docs| && Confirms(docs[i], featureId) && docs[i].disease == d {
          var i :| 0 <= i < |docs| && Confirms(docs[i], featureId) && docs[i].disease == d;
          if i < |init| {
            assert Confirms(init[i], featureId) && init[i].disease == d;
          }
        }
        if d in ConfirmedDiseases(featureId, init) {
          var i :| 0 <= i < |init| && Confirms(init[i], featureId) && init[i].disease == d;
          assert docs[i] == init[i];
        }
      }
    }
  }

  /**
   * `is_an_index_snp`: the set of diseases of the documents that confirm the
   * marker, each once (a Python set; the model keeps first occurrences in order).
   */
  method IsAnIndexSnp(featureSrc: FeatureSrc, docs: seq<RegionHitDoc>) returns (diseaseList: seq<Disease>)
    ensures diseaseList == Dedup(ConfirmedDiseases(FeatureId(featureSrc), docs))
  {
    var featureId: string;
    if featureSrc.HitDoc? {
      featureId := featureSrc.id;
    } else {
      featureId := featureSrc.id;
    }
    diseaseList := [];
    for i := 0 to |docs|
      invariant diseaseList == Dedup(ConfirmedDiseases(featureId, docs[..i]))
    {
      assert docs[..i + 1][..i] == docs[..i];
      var doc := docs[i];
      var tier := doc.tier;
      var status := doc.status;
      var marker := doc.marker;
      var disease := doc.disease;
      if tier < 3 && status == "N" && marker == featureId {
        assert ConfirmedDiseases(featureId, docs[..i + 1]) == ConfirmedDiseases(featureId, docs[..i]) + [disease];
        if disease !in diseaseList {
          diseaseList := diseaseList + [disease];
        }
      } else {
        assert ConfirmedDiseases(featureId, docs[..i + 1]) == ConfirmedDiseases(featureId, docs[..i]);
      }
    }
    assert docs[..|docs|] == docs;
  }

  /**
   * A disease is reported exactly when some document with tier below 3 and
   * status 'N' names the marker and that disease, and it is reported once.
   */
  lemma IndexSnpDiseases(featureSrc: FeatureSrc, docs: seq<RegionHitDoc>, d: Disease)
    ensures var r := Dedup(ConfirmedDiseases(FeatureId(featureSrc), docs));
      && Distinct(r)
      && (d in r <==> exists i :: 0 <= i < |docs| && docs[i].tier < 3 && docs[i].status == "N"
                                 && docs[i].marker == FeatureId(featureSrc) && docs[i].disease == d)
  {
    ConfirmedDiseasesMembers(FeatureId(featureSrc), docs);
  }

  /** One entry of a marker's list: the section that tagged it and its diseases. */
  datatype SectionTags = SectionTags(section: string, diseases: seq<Disease>)

  /** The accumulated result: marker id to its entries, one per tagging section. */
  type MarkerResults = ODict<string, seq<SectionTags>>

  /** One marker of the page: a marker with diseases gains one entry, appended after those it had. */
  function AddMarker(results: MarkerResults, markerId: string, section: string, diseaseIds: seq<Disease>): MarkerResults {
    if |diseaseIds| > 0 then
      if markerId !in results.vals then results.Put(markerId, [SectionTags(section, diseaseIds)])
      else results.Put(markerId, results.vals[markerId] + [SectionTags(section, diseaseIds)])
    else results
  }

  /** The markers of a page, each tagged in turn. */
  function AddMarkers(results: MarkerResults, markers: seq<string>, section: string, tag: string -> seq<Disease>): MarkerResults
    decreases |markers|
  {
    if markers == [] then results
    else
      var m := markers[|markers| - 1];
      AddMarker(AddMarkers(results, markers[..|markers| - 1], section, tag), m, section, tag(m))
  }

  /**
   * `process_hits` for one page: the page's markers, collected as a set, are
   * each tagged once by the section's rule (`tag`), and every marker with
   * diseases gains one entry for the section.
   */
  method ProcessHits(hitMarkers: seq<string>, section: string, tag: string -> seq<Disease>, results: MarkerResults)
    returns (r: MarkerResults)
    ensures r == AddMarkers(results, Dedup(hitMarkers), section, tag)
  {
    var markerContainer: seq<string> := [];
    for i := 0 to |hitMarkers|
      invariant markerContainer == Dedup(hitMarkers[..i])
    {
      assert hitMarkers[..i + 1][..i] == hitMarkers[..i];
      if hitMarkers[i] !in markerContainer {
        markerContainer := markerContainer + [hitMarkers[i]];
      }
    }
    assert hitMarkers[..|hitMarkers|] == hitMarkers;
    r := results;
    for j := 0 to |markerContainer|
      invariant r == AddMarkers(results, markerContainer[..j], section, tag)
    {
      assert markerContainer[..j + 1][..j] == markerContainer[..j];
      var markerId := markerContainer[j];
      var diseaseIds := tag(markerId);
      if |diseaseIds| > 0 {
        if markerId !in r.vals {
          r := r.Put(markerId, [SectionTags(section, diseaseIds)]);
        } else {
          var existingCriteria := r.vals[markerId];
          existingCriteria := existingCriteria + [SectionTags(section, diseaseIds)];
          r := r.Put(markerId, existingCriteria);
        }
      }
    }
    assert markerContainer[..|markerContainer|] == markerContainer;
  }

  /**
   * Tagging a list of distinct markers: each marker of the list with
   * diseases gains exactly one entry for the section, after its existing
   * ones; every other marker keeps its entries; the dict stays well formed
   * and existing markers keep their places.
   */
  lemma {:induction false} AddMarkersEffect(results: MarkerResults, markers: seq<string>, section: string,
                                            tag: string -> seq<Disease>, m: string)
    requires Distinct(markers)
    ensures var r := AddMarkers(results, markers, section, tag);
      && (results.Valid() ==> r.Valid())
      && IsPrefix(results.keys, r.keys)
      && r.Get(m) == if m in markers && |tag(m)| > 0
                     then Some(results.Get(m).GetOr([]) + [SectionTags(section, tag(m))])
                     else results.Get(m)
    decreases |markers|
  {
    if markers != [] {
      var init := markers[..|markers| - 1];
      var last := markers[|markers| - 1];
      assert Distinct(init);
      AddMarkersEffect(results, init, section, tag, m);
      AddMarkersEffect(results, init, section, tag, last);
      assert last !in init;
      var prev := AddMarkers(results, init, section, tag);
      var r := AddMarkers(results, markers, section, tag);
      assert r == AddMarker(prev, last, section, tag(last));
      assert IsPrefix(prev.keys, r.keys);
      assert m in markers <==> m in init || m == last;
      if m == last {
        assert prev.Get(m) == results.Get(m);
        if |tag(m)| > 0 {
          assert r.vals[m] == prev.Get(m).GetOr([]) + [SectionTags(section, tag(m))];
        }
      } else {
        assert r.Get(m) == prev.Get(m);
      }
    }
  }

  /**
   * Within a page each marker is tagged once, however often it occurs: a
   * marker of the page with diseases gains exactly one entry, the others
   * are untouched.
   */
  lemma ProcessHitsEffect(hitMarkers: seq<string>, section: string, tag: string -> seq<Disease>,
                          results: MarkerResults, m: string)
    ensures var r := AddMarkers(results, Dedup(hitMarkers), section, tag);
      && (results.Valid() ==> r.Valid())
      && r.Get(m) == if m in hitMarkers && |tag(m)| > 0
                     then Some(results.Get(m).GetOr([]) + [SectionTags(section, tag(m))])
                     else results.Get(m)
  {
    AddMarkersEffect(results, Dedup(hitMarkers), section, tag, m);
  }

  /**
   * Two sections processed in turn append, never overwrite: the marker's
   * entries are its old ones, then the first section's, then the second's.
   */
  lemma LaterSectionsAppend(hitMarkers: seq<string>, s1: string, tag1: string -> seq<Disease>,
                            s2: string, tag2: string -> seq<Disease>, results: MarkerResults, m: string)
    requires m in hitMarkers && |tag1(m)| > 0 && |tag2(m)| > 0
    ensures var r1 := AddMarkers(results, Dedup(hitMarkers), s1, tag1);
      var r2 := AddMarkers(r1, Dedup(hitMarkers), s2, tag2);
      r2.Get(m) == Some(results.Get(m).GetOr([]) + [SectionTags(s1, tag1(m)), SectionTags(s2, tag2(m))])
  {
    var r1 := AddMarkers(results, Dedup(hitMarkers), s1, tag1);
    var r2 := AddMarkers(r1, Dedup(hitMarkers), s2, tag2);
    var old1 := results.Get(m).GetOr([]);
    ProcessHitsEffect(hitMarkers, s1, tag1, results, m);
    assert r1.Get(m) == Some(old1 + [SectionTags(s1, tag1(m))]);
    ProcessHitsEffect(hitMarkers, s2, tag2, r1, m);
    assert r2.Get(m) == Some(old1 + [SectionTags(s1, tag1(m))] + [SectionTags(s2, tag2(m))]);
    assert old1 + [SectionTags(s1, tag1(m))] + [SectionTags(s2, tag2(m))]
        == old1 + [SectionTags(s1, tag1(m)), SectionTags(s2, tag2(m))];
  }
}
