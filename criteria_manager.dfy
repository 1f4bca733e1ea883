/**
 * Configuration helpers of the criteria engine: the disease tiers, the
 * criteria sections grouped by feature, and the selection of the sections to
 * run from a comma-separated request.
 */
module CriteriaManager {
  import opened Wrappers
  import opened OrderedDict
  import opened Documents
  import Text

  const Tier1: seq<string> := ["AS", "ATD", "CEL", "CRO", "JIA", "MS", "PBC", "PSO", "RA", "SLE", "T1D", "UC"]
  const Tier2: seq<string> := ["AA", "IGE", "IBD", "NAR", "PSC", "SJO", "SSC", "VIT"]

  /** `get_available_diseases(tier)`: tier 1, tier 2, or both in that order for any other value. */
  function GetAvailableDiseases(tier: Option<int>): (r: seq<string>)
    ensures tier == Some(1) ==> r == Tier1
    ensures tier == Some(2) ==> r == Tier2
    ensures tier != Some(1) && tier != Some(2) ==> r == Tier1 + Tier2
  {
    if tier == Some(1) then Tier1 else if tier == Some(2) then Tier2 else Tier1 + Tier2
  }

  /** Twelve core codes and eight other codes, all different, so every known code has one tier. */
  lemma TiersPartition()
    ensures |GetAvailableDiseases(Some(1))| == 12 && |GetAvailableDiseases(Some(2))| == 8
    ensures Distinct(GetAvailableDiseases(None))
    ensures forall d :: d in GetAvailableDiseases(Some(1)) ==> d !in GetAvailableDiseases(Some(2))
  {
  }

  /** A configuration section: its name and its options. */
  datatype Section = Section(name: string, options: map<string, string>)

  /** One step of the grouping loop of `get_available_criterias`. */
  function GroupStep(d: ODict<string, seq<string>>, s: Section, feature: Option<string>): ODict<string, seq<string>>
  {
    if "feature" !in s.options then d
    else if feature.Some? && feature.value != s.options["feature"] then d
    else
      var k := s.options["feature"];
      if k in d.vals then d.Put(k, d.vals[k] + [s.name]) else d.Put(k, [s.name])
  }

  /** The dictionary `get_available_criterias` builds from the sections, in section order. */
  function Grouped(sections: seq<Section>, feature: Option<string>): ODict<string, seq<string>>
    decreases |sections|
  {
    if sections == [] then Empty()
    else GroupStep(Grouped(sections[..|sections| - 1], feature), sections[|sections| - 1], feature)
  }

  /** The names of the sections whose `feature` option is `k`, in section order. */
  function NamesFor(sections: seq<Section>, k: string): seq<string>
    decreases |sections|
  {
    if sections == [] then []
    else
      var last := sections[|sections| - 1];
      NamesFor(sections[..|sections| - 1], k)
        + (if "feature" in last.options && last.options["feature"] == k then [last.name] else [])
  }

  /** `get_available_criterias(feature, config)`. */
  method GetAvailableCriterias(feature: Option<string>, sections: seq<Section>)
    returns (criteria: ODict<string, seq<string>>)
    ensures criteria == Grouped(sections, feature)
    ensures criteria.Valid()
    ensures forall k :: k in criteria.vals <==> NamesFor(sections, k) != [] && (feature.None? || feature.value == k)
    ensures forall k :: k in criteria.vals ==> criteria.vals[k] == NamesFor(sections, k)
  {
    criteria := Empty();
    for i := 0 to |sections|
      invariant criteria == Grouped(sections[..i], feature)
    {
      assert sections[..i + 1][..i] == sections[..i];
      var s := sections[i];
      if "feature" in s.options {
        if feature.Some? && feature.value != s.options["feature"] {
          continue;
        }
        var k := s.options["feature"];
        if k in criteria.vals {
          var names := criteria.vals[k];
          names := names + [s.name];
          criteria := criteria.Put(k, names);
        } else {
          criteria := criteria.Put(k, [s.name]);
        }
      }
    }
    assert sections[..|sections|] == sections;
    GroupedContents(sections, feature);
  }

  /**
   * A feature key is present exactly when some section names that feature and
   * the filter admits it, and its list is those sections' names in order.
   */
  lemma {:induction false} GroupedContents(sections: seq<Section>, feature: Option<string>)
    ensures Grouped(sections, feature).Valid()
    ensures forall k :: k in Grouped(sections, feature).vals <==>
                          NamesFor(sections, k) != [] && (feature.None? || feature.value == k)
    ensures forall k :: k in Grouped(sections, feature).vals ==>
                          Grouped(sections, feature).vals[k] == NamesFor(sections, k)
    decreases |sections|
  {
    if sections != [] {
      GroupedContents(sections[..|sections| - 1], feature);
    }
  }

  /** The requested names `process_criterias` keeps: stripped pieces of the comma list that are available. */
  function Requested(pieces: seq<string>, available: seq<string>): (r: seq<string>)
    decreases |pieces|
  {
    if pieces == [] then []
    else
      var name := Text.Strip(pieces[0]);
      (if name in available then [name] else []) + Requested(pieces[1..], available)
  }

  /** A name is kept exactly when it is available and some piece strips to it. */
  lemma {:induction false} RequestedMembers(pieces: seq<string>, available: seq<string>)
    ensures forall x :: x in Requested(pieces, available) <==>
              x in available && exists i :: 0 <= i < |pieces| && Text.Strip(pieces[i]) == x
    decreases |pieces|
  {
    if pieces != [] {
      RequestedMembers(pieces[1..], available);
      forall x | x in available && (exists i :: 0 <= i < |pieces| && Text.Strip(pieces[i]) == x)
        ensures x in Requested(pieces, available)
      {
        var i :| 0 <= i < |pieces| && Text.Strip(pieces[i]) == x;
        if i > 0 {
          assert Text.Strip(pieces[1..][i - 1]) == x;
        }
      }
      forall x | x in Requested(pieces[1..], available)
        ensures exists i :: 0 <= i < |pieces| && Text.Strip(pieces[i]) == x
      {
        var j :| 0 <= j < |pieces| - 1 && Text.Strip(pieces[1..][j]) == x;
        assert Text.Strip(pieces[j + 1]) == x;
      }
    }
  }

  /** What `process_criterias` does for one selected section of a feature. */
  datatype Step =
    | BuildGeneCriteria(section: string)
    | AnnounceOnly(feature: string, section: string)
    | Unsupported(section: string)

  function StepFor(feature: string, section: string): Step {
    if feature == "gene" then BuildGeneCriteria(section)
    else if feature == "marker" || feature == "region" || feature == "study" then AnnounceOnly(feature, section)
    else Unsupported(section)
  }

  /** The sections `process_criterias` runs: all available ones, or the available requested ones. */
  function SelectedCriterias(available: seq<string>, criteria: Option<string>): seq<string> {
    if criteria.None? then available else Requested(Text.Split(criteria.value, ','), available)
  }

  /**
   * `process_criterias(feature, criteria)`: the feature's available sections are
   * looked up (a feature no section names raises `KeyError`), filtered by the
   * request, and each selected section is dispatched on the feature.
   */
  method ProcessCriterias(feature: string, criteria: Option<string>, sections: seq<Section>)
    returns (r: Result<seq<Step>, Error>)
    ensures r.Err? <==> NamesFor(sections, feature) == []
    ensures r.Err? ==> r.error == KeyError(feature)
    ensures r.Ok? ==>
      var selected := SelectedCriterias(NamesFor(sections, feature), criteria);
      |r.value| == |selected| && forall i :: 0 <= i < |selected| ==> r.value[i] == StepFor(feature, selected[i])
  {
    var grouped := GetAvailableCriterias(Some(feature), sections);
    if feature !in grouped.vals {
      return Err(KeyError(feature));
    }
    var available := grouped.vals[feature];
    var toProcess := SelectedCriterias(available, criteria);
    var steps: seq<Step> := [];
    for i := 0 to |toProcess|
      invariant |steps| == i
      invariant forall j :: 0 <= j < i ==> steps[j] == StepFor(feature, toProcess[j])
    {
      var section := toProcess[i];
      if feature == "gene" {
        steps := steps + [BuildGeneCriteria(section)];
      } else if feature == "marker" || feature == "region" || feature == "study" {
        steps := steps + [AnnounceOnly(feature, section)];
      } else {
        steps := steps + [Unsupported(section)];
      }
    }
    return Ok(steps);
  }

  /** A feature outside gene, marker, region and study is never processed, only reported. */
  lemma UnsupportedFeatureOnlyReported(feature: string, section: string)
    requires feature !in ["gene", "marker", "region", "study"]
    ensures StepFor(feature, section) == Unsupported(section)
  {
  }
}
