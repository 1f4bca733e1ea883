/**
 * The study rule: a study tags itself with each of its diseases, the disease
 * serving as its own evidence.
 */
module StudyCriteria {
  import opened Wrappers
  import opened OrderedDict
  import opened Documents
  import opened Criteria
  import CriteriaManager
  import Text

  /** The merges `study_for_disease` makes: one per disease, in order. */
  function StudyTriples(studyId: string, diseases: seq<Disease>): seq<Triple>
    decreases |diseases|
  {
    if diseases == [] then []
    else
      var d := diseases[|diseases| - 1];
      StudyTriples(studyId, diseases[..|diseases| - 1]) + [Triple(Some(studyId), d, GetCriteriaDict(d, d, None))]
  }

  /** What `study_for_disease` returns, or the error it raises. */
  function StudyForDiseaseOutcome(hit: Hit, c: Container): Result<Container, Error> {
    if hit.source.diseases.None? then Err(KeyError("diseases"))
    else if hit.source.studyId.None? then Err(KeyError("study_id"))
    else Ok(MergeAll(c, StudyTriples(hit.source.studyId.value, hit.source.diseases.value)))
  }

  /**
   * `study_for_disease`: for each disease of the study, populate the study's
   * row with that disease, the disease itself as id and name of the evidence.
   */
  method StudyForDisease(hit: Hit, c: Container) returns (r: Result<Container, Error>)
    ensures r == StudyForDiseaseOutcome(hit, c)
  {
    var featureDoc := hit.source;
    if featureDoc.diseases.None? {
      return Err(KeyError("diseases"));
    }
    if featureDoc.studyId.None? {
      return Err(KeyError("study_id"));
    }
    var diseases := featureDoc.diseases.value;
    var studyId := featureDoc.studyId.value;
    var populated := c;
    for i := 0 to |diseases|
      invariant populated == MergeAll(c, StudyTriples(studyId, diseases[..i]))
    {
      var disease := diseases[i];
      StudyStep(c, studyId, diseases, i);
      populated := PopulateContainer(disease, disease, None, [studyId], [disease], populated);
    }
    assert diseases[..|diseases|] == diseases;
    return Ok(populated);
  }

  /** One iteration of `study_for_disease` is one population with one feature and one disease. */
  lemma StudyStep(c: Container, studyId: string, diseases: seq<Disease>, i: nat)
    requires i < |diseases|
    ensures var d := diseases[i];
      MergeAll(MergeAll(c, StudyTriples(studyId, diseases[..i])), PopulateTriples([studyId], [d], GetCriteriaDict(d, d, None)))
        == MergeAll(c, StudyTriples(studyId, diseases[..i + 1]))
  {
    var d := diseases[i];
    var t := Triple(Some(studyId), d, GetCriteriaDict(d, d, None));
    assert diseases[..i + 1][..i] == diseases[..i];
    assert StudyTriples(studyId, diseases[..i + 1]) == StudyTriples(studyId, diseases[..i]) + [t];
    PopulateSingle(studyId, d, GetCriteriaDict(d, d, None));
    MergeAllConcat(c, StudyTriples(studyId, diseases[..i]), [t]);
  }

  lemma {:induction false} StudyTriplesMembers(studyId: string, diseases: seq<Disease>)
    ensures forall t :: t in StudyTriples(studyId, diseases) <==>
              t.feature == Some(studyId) && t.disease in diseases && t.evidence == Evidence(t.disease, t.disease, None)
    decreases |diseases|
  {
    if diseases != [] {
      StudyTriplesMembers(studyId, diseases[..|diseases| - 1]);
      assert diseases == diseases[..|diseases| - 1] + [diseases[|diseases| - 1]];
    }
  }

  /** The records the study's merges send to one list: only `{fid: d, fname: d}`, and some exactly for its own diseases. */
  lemma StudyStream(studyId: string, diseases: seq<Disease>, f: FeatureKey, d: Disease)
    ensures forall x :: x in Stream(StudyTriples(studyId, diseases), f, d) ==> x == Evidence(d, d, None)
    ensures Stream(StudyTriples(studyId, diseases), f, d) == [] <==> !(f == Some(studyId) && d in diseases)
  {
    var ts := StudyTriples(studyId, diseases);
    StreamMembers(ts, f, d);
    StudyTriplesMembers(studyId, diseases);
    if f == Some(studyId) && d in diseases {
      assert Triple(f, d, Evidence(d, d, None)) in ts;
    } else {
      forall t | t in ts ensures !(t.feature == f && t.disease == d) {}
      StreamEmpty(ts, f, d);
    }
  }

  /** The study's merges add `{fid: d, fname: d}` to its list for each of its diseases `d`, and change no other list. */
  lemma StudyTriplesEffect(c: Container, studyId: string, diseases: seq<Disease>, f: FeatureKey, d: Disease)
    ensures ListOf(MergeAll(c, StudyTriples(studyId, diseases)), f, d) ==
              if f == Some(studyId) && d in diseases then AddNew(ListOf(c, f, d), Evidence(d, d, None)) else ListOf(c, f, d)
  {
    var ts := StudyTriples(studyId, diseases);
    MergeAllList(c, ts, f, d);
    StudyStream(studyId, diseases, f, d);
    AppendNewSame(ListOf(c, f, d), Stream(ts, f, d), Evidence(d, d, None));
  }

  /**
   * What the study rule does to one list: the study's list for each of its
   * diseases gains `{fid: disease, fname: disease}` unless already there;
   * every other list, including those of any other feature, is unchanged.
   */
  lemma StudyForDiseaseEffect(hit: Hit, c: Container, f: FeatureKey, d: Disease)
    requires hit.source.diseases.Some? && hit.source.studyId.Some?
    ensures var r := StudyForDiseaseOutcome(hit, c);
      && r.Ok?
      && ListOf(r.value, f, d) ==
           if f == Some(hit.source.studyId.value) && d in hit.source.diseases.value
           then AddNew(ListOf(c, f, d), Evidence(d, d, None))
           else ListOf(c, f, d)
  {
    StudyTriplesEffect(c, hit.source.studyId.value, hit.source.diseases.value, f, d);
  }

  /** Only the study's own row changes; it exists afterwards exactly when it did before or the study has diseases. */
  lemma StudyForDiseaseRows(hit: Hit, c: Container, f: FeatureKey)
    requires hit.source.diseases.Some? && hit.source.studyId.Some?
    ensures var r := StudyForDiseaseOutcome(hit, c);
      && r.Ok?
      && (f != Some(hit.source.studyId.value) ==> RowOf(r.value, f) == RowOf(c, f))
      && (f in r.value.vals <==> f in c.vals || (f == Some(hit.source.studyId.value) && hit.source.diseases.value != []))
  {
    var sid := hit.source.studyId.value;
    var ds := hit.source.diseases.value;
    var ts := StudyTriples(sid, ds);
    StudyTriplesMembers(sid, ds);
    MergeAllKeys(c, ts);
    if f != Some(sid) {
      forall i | 0 <= i < |ts| ensures ts[i].feature != f {
        assert ts[i] in ts;
      }
      MergeAllUntouched(c, ts, f);
    }
    if f == Some(sid) && ds != [] {
      var t := Triple(f, ds[0], Evidence(ds[0], ds[0], None));
      assert t in ts;
      var i :| 0 <= i < |ts| && ts[i] == t;
    }
  }

  /**
   * A study whose diseases are all already recorded for it, in particular a
   * study with no diseases, leaves the container exactly as it was.
   */
  lemma StudyAlreadyTagged(hit: Hit, c: Container)
    requires hit.source.diseases.Some? && hit.source.studyId.Some?
    requires forall d :: d in hit.source.diseases.value ==> Evidence(d, d, None) in ListOf(c, Some(hit.source.studyId.value), d)
    ensures StudyForDiseaseOutcome(hit, c) == Ok(c)
  {
    var ts := StudyTriples(hit.source.studyId.value, hit.source.diseases.value);
    StudyTriplesMembers(hit.source.studyId.value, hit.source.diseases.value);
    forall i | 0 <= i < |ts| ensures ts[i].evidence in ListOf(c, ts[i].feature, ts[i].disease) {
      assert ts[i] in ts;
    }
    MergeAllPresent(c, ts);
  }

  /**
   * The study in the repository's test, tagged for RA and T1D in an empty
   * container: each disease's list holds the disease itself.
   */
  lemma StudyForDiseaseExample(hit: Hit)
    requires hit.source.studyId == Some("GDXHsS00005") && hit.source.diseases == Some(["RA", "T1D"])
    ensures var r := StudyForDiseaseOutcome(hit, Empty());
      && r.Ok?
      && ListOf(r.value, Some("GDXHsS00005"), "RA") == [Evidence("RA", "RA", None)]
      && ListOf(r.value, Some("GDXHsS00005"), "T1D") == [Evidence("T1D", "T1D", None)]
      && ListOf(r.value, Some("GDXHsS00005"), "AA") == []
  {
    var c: Container := Empty();
    assert ListOf(c, Some("GDXHsS00005"), "RA") == [];
    assert ListOf(c, Some("GDXHsS00005"), "T1D") == [];
    assert ListOf(c, Some("GDXHsS00005"), "AA") == [];
    StudyForDiseaseEffect(hit, c, Some("GDXHsS00005"), "RA");
    StudyForDiseaseEffect(hit, c, Some("GDXHsS00005"), "T1D");
    StudyForDiseaseEffect(hit, c, Some("GDXHsS00005"), "AA");
  }

  /** The study rule named `section`, applied; a section naming no rule is an error. */
  function StudyRuleOutcome(section: string, hit: Hit, c: Container): Result<Container, Error> {
    if section == "study_for_disease" then StudyForDiseaseOutcome(hit, c)
    else Err(UnknownRule(section))
  }

  /** `StudyCriteria.tag_feature_to_disease(hit, section, ...)`: call the rule named by the section. */
  method TagFeatureToDisease(hit: Hit, section: string, c: Container) returns (r: Result<Container, Error>)
    ensures r == StudyRuleOutcome(section, hit, c)
    ensures section != "study_for_disease" ==> r == Err(UnknownRule(section))
  {
    if section == "study_for_disease" {
      r := StudyForDisease(hit, c);
    } else {
      r := Err(UnknownRule(section));
    }
  }

  /**
   * `StudyCriteria.get_criteria_details`: the index defaults to the study
   * criteria index, and the index types are the comma-joined criteria of the
   * last feature the available criteria list. The available criteria are
   * those of the `region` feature, so the index types are the region rules.
   */
  method GetCriteriaDetails(sections: seq<CriteriaManager.Section>, idx: Option<string>, studyCriteriaIdx: string)
    returns (index: string, idxType: Option<string>)
    ensures index == idx.GetOr(studyCriteriaIdx)
    ensures idxType == if CriteriaManager.NamesFor(sections, "region") == [] then None
                       else Some(Text.Join(CriteriaManager.NamesFor(sections, "region"), ','))
  {
    var availableCriterias := CriteriaManager.GetAvailableCriterias(Some("region"), sections);
    idxType := None;
    for i := 0 to |availableCriterias.keys|
      invariant i == 0 ==> idxType == None
      invariant i > 0 ==> idxType == Some(Text.Join(availableCriterias.vals[availableCriterias.keys[i - 1]], ','))
    {
      idxType := Some(Text.Join(availableCriterias.vals[availableCriterias.keys[i]], ','));
    }
    OnlyRegionListed(availableCriterias, sections);
    if idx.None? {
      index := studyCriteriaIdx;
    } else {
      index := idx.value;
    }
  }

  /** The criteria available to the `region` feature list that feature alone, and list it when it has any. */
  lemma OnlyRegionListed(criteria: ODict<string, seq<string>>, sections: seq<CriteriaManager.Section>)
    requires forall k :: k in criteria.vals <==> k in criteria.keys
    requires forall k :: k in criteria.vals <==> CriteriaManager.NamesFor(sections, k) != [] && k == "region"
    requires forall k :: k in criteria.vals ==> criteria.vals[k] == CriteriaManager.NamesFor(sections, k)
    ensures CriteriaManager.NamesFor(sections, "region") == [] ==> criteria.keys == []
    ensures CriteriaManager.NamesFor(sections, "region") != [] ==>
              && |criteria.keys| > 0
              && criteria.keys[|criteria.keys| - 1] == "region"
              && criteria.vals["region"] == CriteriaManager.NamesFor(sections, "region")
  {
    forall i | 0 <= i < |criteria.keys|
      ensures criteria.keys[i] == "region" && CriteriaManager.NamesFor(sections, "region") != []
    {
      assert criteria.keys[i] in criteria.vals;
    }
    assert |criteria.keys| > 0 ==> criteria.keys[0] in criteria.vals;
    if CriteriaManager.NamesFor(sections, "region") != [] {
      assert "region" in criteria.vals;
    }
  }
}
