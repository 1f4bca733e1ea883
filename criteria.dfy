/**
 * The evidence accumulator shared by all rules. A result container maps each
 * feature id to a row; a row maps each disease code to the list of evidence
 * records that tag the feature with that disease, and after the flush also
 * carries the row's score and disease tags.
 *
 * Every rule changes a container only by merging evidence records: a triple
 * (feature, disease, record) is merged by appending the record to the
 * feature's list for that disease unless an equal record is already there.
 */
module Criteria {
  import opened Wrappers
  import opened OrderedDict
  import opened Documents
  import CriteriaManager
  import Text

  type Disease = string
  /** A container key; `None` is the Python `None` key, which the flush skips. */
  type FeatureKey = Option<string>
  type Notes = map<string, string>

  /** An evidence record `{fid, fname[, fnotes]}`; equality compares all three, as Python dict equality does. */
  datatype Evidence = Evidence(fid: string, fname: string, fnotes: Option<Notes>)

  /** A feature's row: disease code to evidence list, plus the two keys the flush writes. */
  datatype Row = Row(tags: ODict<Disease, seq<Evidence>>, score: Option<int>, diseaseTags: Option<seq<Disease>>)

  type Container = ODict<FeatureKey, Row>

  /** One merge: record `evidence` against `disease` in `feature`'s row. */
  datatype Triple = Triple(feature: FeatureKey, disease: Disease, evidence: Evidence)

  const EmptyRow: Row := Row(Empty(), None, None)

  /** Rows of a well-formed container are Python dicts too. */
  ghost predicate WellFormed(c: Container) {
    c.Valid() && forall f :: f in c.vals ==> c.vals[f].tags.Valid()
  }

  /** `get_criteria_dict(fid, fname, fnotes)`. */
  function GetCriteriaDict(fid: string, fname: string, fnotes: Option<Notes>): (r: Evidence)
    ensures r.fid == fid && r.fname == fname
    ensures r.fnotes.Some? <==> fnotes.Some? && |fnotes.value| > 0
    ensures r.fnotes.Some? ==> r.fnotes == fnotes
  {
    if fnotes.Some? && |fnotes.value| > 0 then Evidence(fid, fname, fnotes) else Evidence(fid, fname, None)
  }

  /** The evidence list of `d` in `row`; an absent disease has none. */
  function EvidenceOf(row: Row, d: Disease): seq<Evidence> {
    if d in row.tags.vals then row.tags.vals[d] else []
  }

  function RowOf(c: Container, f: FeatureKey): Row {
    if f in c.vals then c.vals[f] else EmptyRow
  }

  /** The evidence list of feature `f` for disease `d`. */
  function ListOf(c: Container, f: FeatureKey, d: Disease): seq<Evidence> {
    EvidenceOf(RowOf(c, f), d)
  }

  /** The list after appending `e` unless an equal record is present. */
  function AddNew(l: seq<Evidence>, e: Evidence): seq<Evidence> {
    if e in l then l else l + [e]
  }

  /** `AddNew` of each of `es` in turn. */
  function AppendNew(l: seq<Evidence>, es: seq<Evidence>): seq<Evidence>
    decreases |es|
  {
    if es == [] then l else AddNew(AppendNew(l, es[..|es| - 1]), es[|es| - 1])
  }

  /** One iteration of `get_criteria_disease_dict`: merge `e` under disease `d`. */
  function MergeRow(row: Row, d: Disease, e: Evidence): (r: Row)
    ensures forall d' :: EvidenceOf(r, d') == if d' == d then AddNew(EvidenceOf(row, d), e) else EvidenceOf(row, d')
    ensures d in r.tags.vals
    ensures r.score == row.score && r.diseaseTags == row.diseaseTags
    ensures IsPrefix(row.tags.keys, r.tags.keys)
    ensures row.tags.Valid() ==> r.tags.Valid()
  {
    if d !in row.tags.vals then row.(tags := row.tags.Put(d, [e]))
    else if e in row.tags.vals[d] then row
    else row.(tags := row.tags.Put(d, row.tags.vals[d] + [e]))
  }

  /** `get_criteria_disease_dict(diseases, e, row)` as a fold. */
  function MergeDiseases(row: Row, ds: seq<Disease>, e: Evidence): Row
    decreases |ds|
  {
    if ds == [] then row else MergeRow(MergeDiseases(row, ds[..|ds| - 1], e), ds[|ds| - 1], e)
  }

  lemma AddNewTwice(l: seq<Evidence>, e: Evidence)
    ensures AddNew(AddNew(l, e), e) == AddNew(l, e)
  {
  }

  /**
   * Merging into a list of diseases: each listed disease gets `e` appended
   * unless already present (an absent disease gets `[e]`), every other disease
   * keeps its list, and the score and tag fields stay as they were.
   */
  lemma {:induction false} MergeDiseasesEvidence(row: Row, ds: seq<Disease>, e: Evidence)
    ensures forall d :: EvidenceOf(MergeDiseases(row, ds, e), d) ==
                          if d in ds then AddNew(EvidenceOf(row, d), e) else EvidenceOf(row, d)
    ensures MergeDiseases(row, ds, e).score == row.score
    ensures MergeDiseases(row, ds, e).diseaseTags == row.diseaseTags
    ensures IsPrefix(row.tags.keys, MergeDiseases(row, ds, e).tags.keys)
    ensures row.tags.Valid() ==> MergeDiseases(row, ds, e).tags.Valid()
    decreases |ds|
  {
    if ds != [] {
      var init := ds[..|ds| - 1];
      MergeDiseasesEvidence(row, init, e);
      forall d ensures d in ds <==> d in init || d == ds[|ds| - 1] {
        assert ds == init + [ds[|ds| - 1]];
      }
      forall d | d == ds[|ds| - 1] && d in init
        ensures EvidenceOf(MergeDiseases(row, ds, e), d) == AddNew(EvidenceOf(row, d), e)
      {
        AddNewTwice(EvidenceOf(row, d), e);
      }
    }
  }

  /** `get_criteria_disease_dict(diseases, e, row)`: the loop over the diseases. */
  method GetCriteriaDiseaseDict(diseases: seq<Disease>, e: Evidence, row: Row) returns (r: Row)
    ensures r == MergeDiseases(row, diseases, e)
    ensures forall d :: EvidenceOf(r, d) == if d in diseases then AddNew(EvidenceOf(row, d), e) else EvidenceOf(row, d)
    ensures r.score == row.score && r.diseaseTags == row.diseaseTags
    ensures row.tags.Valid() ==> r.tags.Valid()
  {
    r := row;
    for i := 0 to |diseases|
      invariant r == MergeDiseases(row, diseases[..i], e)
    {
      assert diseases[..i + 1][..i] == diseases[..i];
      var d := diseases[i];
      if d in r.tags.vals {
        var existing := r.tags.vals[d];
        if e !in existing {
          existing := existing + [e];
          r := r.(tags := r.tags.Put(d, existing));
        }
      } else {
        r := r.(tags := r.tags.Put(d, [e]));
      }
    }
    assert diseases[..|diseases|] == diseases;
    MergeDiseasesEvidence(row, diseases, e);
  }

  /** Merging the same record into the same diseases twice is merging it once. */
  lemma {:induction false} MergeDiseasesIdempotent(row: Row, ds: seq<Disease>, e: Evidence)
    ensures MergeDiseases(MergeDiseases(row, ds, e), ds, e) == MergeDiseases(row, ds, e)
    decreases |ds|
  {
    var once := MergeDiseases(row, ds, e);
    MergeDiseasesEvidence(row, ds, e);
    forall d | d in ds ensures e in EvidenceOf(once, d) {}
    MergeDiseasesPresent(once, ds, e);
  }

  /** Merging a record already listed under every given disease changes nothing. */
  lemma {:induction false} MergeDiseasesPresent(row: Row, ds: seq<Disease>, e: Evidence)
    requires forall d :: d in ds ==> e in EvidenceOf(row, d)
    ensures MergeDiseases(row, ds, e) == row
    decreases |ds|
  {
    if ds != [] {
      MergeDiseasesPresent(row, ds[..|ds| - 1], e);
      assert ds[|ds| - 1] in ds;
    }
  }

  /** One merge into the container: `container[f] = get_criteria_disease_dict([d], e, container.get(f, {}))`. */
  function Merge(c: Container, t: Triple): (r: Container)
    ensures forall f, d :: ListOf(r, f, d) ==
              if f == t.feature && d == t.disease then AddNew(ListOf(c, f, d), t.evidence) else ListOf(c, f, d)
    ensures forall f :: f in r.vals <==> f in c.vals || f == t.feature
    ensures forall f :: f != t.feature ==> RowOf(r, f) == RowOf(c, f)
    ensures IsPrefix(c.keys, r.keys)
    ensures WellFormed(c) ==> WellFormed(r)
  {
    c.Put(t.feature, MergeRow(RowOf(c, t.feature), t.disease, t.evidence))
  }

  /** The merges of `ts`, first to last. */
  function MergeAll(c: Container, ts: seq<Triple>): Container
    decreases |ts|
  {
    if ts == [] then c else Merge(MergeAll(c, ts[..|ts| - 1]), ts[|ts| - 1])
  }

  /** The records `ts` merges into feature `f` under disease `d`, in order. */
  function Stream(ts: seq<Triple>, f: FeatureKey, d: Disease): seq<Evidence>
    decreases |ts|
  {
    if ts == [] then []
    else
      var t := ts[|ts| - 1];
      Stream(ts[..|ts| - 1], f, d) + (if t.feature == f && t.disease == d then [t.evidence] else [])
  }

  lemma MergeAllSnoc(c: Container, ts: seq<Triple>, t: Triple)
    ensures MergeAll(c, ts + [t]) == Merge(MergeAll(c, ts), t)
  {
    assert (ts + [t])[..|ts|] == ts;
  }

  lemma MergeAllConcat(c: Container, a: seq<Triple>, b: seq<Triple>)
    ensures MergeAll(c, a + b) == MergeAll(MergeAll(c, a), b)
    decreases |b|
  {
    if b != [] {
      assert a + b == (a + b[..|b| - 1]) + [b[|b| - 1]];
      MergeAllSnoc(c, a + b[..|b| - 1], b[|b| - 1]);
      MergeAllConcat(c, a, b[..|b| - 1]);
    } else {
      assert a + b == a;
    }
  }

  /**
   * The central characterisation: after merging `ts`, the list of `f` under
   * `d` is the old list followed by the new records `ts` carries for that pair,
   * in order, each skipped when an equal record is already present.
   */
  lemma {:induction false} MergeAllList(c: Container, ts: seq<Triple>, f: FeatureKey, d: Disease)
    ensures ListOf(MergeAll(c, ts), f, d) == AppendNew(ListOf(c, f, d), Stream(ts, f, d))
    decreases |ts|
  {
    if ts != [] {
      var init := ts[..|ts| - 1];
      var t := ts[|ts| - 1];
      MergeAllList(c, init, f, d);
      var s := Stream(init, f, d);
      if t.feature == f && t.disease == d {
        assert Stream(ts, f, d) == s + [t.evidence];
        assert (s + [t.evidence])[..|s|] == s;
      } else {
        assert Stream(ts, f, d) == s;
      }
    }
  }

  /** The stream of a concatenation is the concatenation of the streams. */
  lemma {:induction false} StreamConcat(a: seq<Triple>, b: seq<Triple>, f: FeatureKey, d: Disease)
    ensures Stream(a + b, f, d) == Stream(a, f, d) + Stream(b, f, d)
    decreases |b|
  {
    if b == [] {
      assert a + b == a;
    } else {
      assert (a + b)[..|a + b| - 1] == a + b[..|b| - 1];
      StreamConcat(a, b[..|b| - 1], f, d);
    }
  }

  /** A record is in the stream of `(f, d)` exactly when some triple carries it for that pair. */
  lemma {:induction false} StreamMembers(ts: seq<Triple>, f: FeatureKey, d: Disease)
    ensures forall e :: e in Stream(ts, f, d) <==> Triple(f, d, e) in ts
    decreases |ts|
  {
    if ts != [] {
      StreamMembers(ts[..|ts| - 1], f, d);
      assert ts == ts[..|ts| - 1] + [ts[|ts| - 1]];
    }
  }

  /** No triple for the pair means no record for it. */
  lemma {:induction false} StreamEmpty(ts: seq<Triple>, f: FeatureKey, d: Disease)
    requires forall t :: t in ts ==> !(t.feature == f && t.disease == d)
    ensures Stream(ts, f, d) == []
    decreases |ts|
  {
    if ts != [] {
      assert forall t :: t in ts[..|ts| - 1] ==> t in ts;
      StreamEmpty(ts[..|ts| - 1], f, d);
      assert ts[|ts| - 1] in ts;
    }
  }

  /** `AppendNew` keeps the old list as a prefix and holds exactly the old and the new records. */
  lemma {:induction false} AppendNewMembers(l: seq<Evidence>, es: seq<Evidence>)
    ensures IsPrefix(l, AppendNew(l, es))
    ensures forall x :: x in AppendNew(l, es) <==> x in l || x in es
    ensures Distinct(l) ==> Distinct(AppendNew(l, es))
    decreases |es|
  {
    if es != [] {
      var init := es[..|es| - 1];
      AppendNewMembers(l, init);
      assert es == init + [es[|es| - 1]];
      var p := AppendNew(l, init);
      if es[|es| - 1] !in p {
        assert (p + [es[|es| - 1]])[..|l|] == p[..|l|];
      }
    }
  }

  /** A feature is in the container after the merges exactly when it was before or some triple names it. */
  lemma {:induction false} MergeAllKeys(c: Container, ts: seq<Triple>)
    ensures forall f :: f in MergeAll(c, ts).vals <==> f in c.vals || exists i :: 0 <= i < |ts| && ts[i].feature == f
    ensures IsPrefix(c.keys, MergeAll(c, ts).keys)
    ensures WellFormed(c) ==> WellFormed(MergeAll(c, ts))
    decreases |ts|
  {
    if ts != [] {
      var init := ts[..|ts| - 1];
      MergeAllKeys(c, init);
      var m := MergeAll(c, init);
      assert IsPrefix(m.keys, MergeAll(c, ts).keys);
      forall f | exists i :: 0 <= i < |ts| && ts[i].feature == f
        ensures f in MergeAll(c, ts).vals
      {
        var i :| 0 <= i < |ts| && ts[i].feature == f;
        if i < |ts| - 1 {
          assert init[i].feature == f;
        }
      }
      forall f | f in MergeAll(c, ts).vals && f !in c.vals
        ensures exists i :: 0 <= i < |ts| && ts[i].feature == f
      {
        if f != ts[|ts| - 1].feature {
          var i :| 0 <= i < |init| && init[i].feature == f;
          assert ts[i].feature == f;
        }
      }
    }
  }

  /** A feature no triple names keeps its row unchanged (or stays absent). */
  lemma {:induction false} MergeAllUntouched(c: Container, ts: seq<Triple>, f: FeatureKey)
    requires forall i :: 0 <= i < |ts| ==> ts[i].feature != f
    ensures RowOf(MergeAll(c, ts), f) == RowOf(c, f)
    ensures f in MergeAll(c, ts).vals <==> f in c.vals
    decreases |ts|
  {
    if ts != [] {
      MergeAllUntouched(c, ts[..|ts| - 1], f);
    }
  }

  /** Merges never change a row's score or tag fields. */
  lemma {:induction false} MergeAllKeepsFlushFields(c: Container, ts: seq<Triple>, f: FeatureKey)
    ensures RowOf(MergeAll(c, ts), f).score == RowOf(c, f).score
    ensures RowOf(MergeAll(c, ts), f).diseaseTags == RowOf(c, f).diseaseTags
    decreases |ts|
  {
    if ts != [] {
      MergeAllKeepsFlushFields(c, ts[..|ts| - 1], f);
    }
  }

  /** Merging triples whose records are all already present changes nothing. */
  lemma {:induction false} MergeAllPresent(c: Container, ts: seq<Triple>)
    requires forall i :: 0 <= i < |ts| ==> ts[i].evidence in ListOf(c, ts[i].feature, ts[i].disease)
    ensures MergeAll(c, ts) == c
    decreases |ts|
  {
    if ts != [] {
      MergeAllPresent(c, ts[..|ts| - 1]);
      var t := ts[|ts| - 1];
      assert t.evidence in ListOf(c, t.feature, t.disease);
      var row := c.vals[t.feature];
      assert MergeRow(row, t.disease, t.evidence) == row;
      assert c.vals[t.feature := row] == c.vals;
    }
  }

  /** Every merged record ends up in its list. */
  lemma MergeAllAddsAll(c: Container, ts: seq<Triple>, t: Triple)
    requires t in ts
    ensures t.evidence in ListOf(MergeAll(c, ts), t.feature, t.disease)
  {
    MergeAllList(c, ts, t.feature, t.disease);
    StreamMembers(ts, t.feature, t.disease);
    AppendNewMembers(ListOf(c, t.feature, t.disease), Stream(ts, t.feature, t.disease));
  }

  /** Merges only ever add: each list keeps its old entries, in order, as a prefix. */
  lemma MergeAllOnlyAdds(c: Container, ts: seq<Triple>, f: FeatureKey, d: Disease)
    ensures IsPrefix(ListOf(c, f, d), ListOf(MergeAll(c, ts), f, d))
  {
    MergeAllList(c, ts, f, d);
    AppendNewMembers(ListOf(c, f, d), Stream(ts, f, d));
  }

  /** A pair no triple names keeps its list. */
  lemma MergeAllOtherPair(c: Container, ts: seq<Triple>, f: FeatureKey, d: Disease)
    requires forall t :: t in ts ==> !(t.feature == f && t.disease == d)
    ensures ListOf(MergeAll(c, ts), f, d) == ListOf(c, f, d)
  {
    MergeAllList(c, ts, f, d);
    StreamEmpty(ts, f, d);
  }

  /** Merging the same triples again leaves the container as the first pass left it. */
  lemma MergeAllIdempotent(c: Container, ts: seq<Triple>)
    ensures MergeAll(MergeAll(c, ts), ts) == MergeAll(c, ts)
  {
    var once := MergeAll(c, ts);
    forall i | 0 <= i < |ts| ensures ts[i].evidence in ListOf(once, ts[i].feature, ts[i].disease) {
      var t := ts[i];
      MergeAllList(c, ts, t.feature, t.disease);
      StreamMembers(ts, t.feature, t.disease);
      assert Triple(t.feature, t.disease, t.evidence) in ts;
      AppendNewMembers(ListOf(c, t.feature, t.disease), Stream(ts, t.feature, t.disease));
    }
    MergeAllPresent(once, ts);
  }

  /**
   * The order of the merges does not change which records a list holds, nor
   * which features are present; only the order inside the lists depends on it.
   */
  lemma MergeAllContentOrderFree(c: Container, a: seq<Triple>, b: seq<Triple>, f: FeatureKey, d: Disease)
    requires forall t :: t in a <==> t in b
    ensures forall e :: e in ListOf(MergeAll(c, a), f, d) <==> e in ListOf(MergeAll(c, b), f, d)
    ensures f in MergeAll(c, a).vals <==> f in MergeAll(c, b).vals
  {
    MergeAllList(c, a, f, d);
    MergeAllList(c, b, f, d);
    StreamMembers(a, f, d);
    StreamMembers(b, f, d);
    AppendNewMembers(ListOf(c, f, d), Stream(a, f, d));
    AppendNewMembers(ListOf(c, f, d), Stream(b, f, d));
    MergeAllKeys(c, a);
    MergeAllKeys(c, b);
    if f in MergeAll(c, a).vals && f !in c.vals {
      var i :| 0 <= i < |a| && a[i].feature == f;
      assert a[i] in b;
    }
    if f in MergeAll(c, b).vals && f !in c.vals {
      var i :| 0 <= i < |b| && b[i].feature == f;
      assert b[i] in a;
    }
  }

  /** Merges keep a duplicate-free list duplicate-free. */
  lemma MergeAllDistinct(c: Container, ts: seq<Triple>, f: FeatureKey, d: Disease)
    requires Distinct(ListOf(c, f, d))
    ensures Distinct(ListOf(MergeAll(c, ts), f, d))
  {
    MergeAllList(c, ts, f, d);
    AppendNewMembers(ListOf(c, f, d), Stream(ts, f, d));
  }

  /**
   * The lists themselves are insertion-ordered: two different records merged
   * into an empty list come out in merge order, so swapping the merges swaps
   * the list.
   */
  lemma MergeOrderShowsInLists(c: Container, f: FeatureKey, d: Disease, e1: Evidence, e2: Evidence)
    requires ListOf(c, f, d) == [] && e1 != e2
    ensures ListOf(Merge(Merge(c, Triple(f, d, e1)), Triple(f, d, e2)), f, d) == [e1, e2]
    ensures ListOf(Merge(Merge(c, Triple(f, d, e2)), Triple(f, d, e1)), f, d) == [e2, e1]
  {
    TwoMerges(c, f, d, e1, e2);
    TwoMerges(c, f, d, e2, e1);
  }

  lemma TwoMerges(c: Container, f: FeatureKey, d: Disease, x: Evidence, y: Evidence)
    requires ListOf(c, f, d) == [] && x != y
    ensures ListOf(Merge(Merge(c, Triple(f, d, x)), Triple(f, d, y)), f, d) == [x, y]
  {
    var one := Merge(c, Triple(f, d, x));
    assert ListOf(one, f, d) == [x];
  }

  /** Two records that differ only in their notes are both kept. */
  lemma NotesTakePartInDedup(c: Container, f: FeatureKey, d: Disease)
    requires ListOf(c, f, d) == []
    ensures
      var plain := GetCriteriaDict("x", "x", None);
      var noted := GetCriteriaDict("x", "x", Some(map["p" := "1"]));
      ListOf(Merge(Merge(c, Triple(f, d, plain)), Triple(f, d, noted)), f, d) == [plain, noted]
  {
    assert map["p" := "1"] != map[] by { assert "p" in map["p" := "1"]; }
  }

  // ---------------------------------------------------------------------------
  // Population: one record merged for every feature and every disease

  /** The merges for feature `f` and each of `ds`, in order. */
  function FeatureTriples(f: string, ds: seq<Disease>, e: Evidence): seq<Triple>
    decreases |ds|
  {
    if ds == [] then [] else FeatureTriples(f, ds[..|ds| - 1], e) + [Triple(Some(f), ds[|ds| - 1], e)]
  }

  /** The merges of `populate_container`: features outer, diseases inner. */
  function PopulateTriples(fs: seq<string>, ds: seq<Disease>, e: Evidence): seq<Triple>
    decreases |fs|
  {
    if fs == [] then [] else PopulateTriples(fs[..|fs| - 1], ds, e) + FeatureTriples(fs[|fs| - 1], ds, e)
  }

  lemma {:induction false} FeatureTriplesMembers(f: string, ds: seq<Disease>, e: Evidence)
    ensures forall t :: t in FeatureTriples(f, ds, e) <==> t.feature == Some(f) && t.disease in ds && t.evidence == e
    decreases |ds|
  {
    if ds != [] {
      FeatureTriplesMembers(f, ds[..|ds| - 1], e);
      assert ds == ds[..|ds| - 1] + [ds[|ds| - 1]];
    }
  }

  /** The merges of `populate_container` are exactly the feature-disease pairs, all with the same record. */
  lemma {:induction false} PopulateTriplesMembers(fs: seq<string>, ds: seq<Disease>, e: Evidence)
    ensures forall t :: t in PopulateTriples(fs, ds, e) <==>
              t.feature.Some? && t.feature.value in fs && t.disease in ds && t.evidence == e
    decreases |fs|
  {
    if fs != [] {
      PopulateTriplesMembers(fs[..|fs| - 1], ds, e);
      FeatureTriplesMembers(fs[|fs| - 1], ds, e);
      assert fs == fs[..|fs| - 1] + [fs[|fs| - 1]];
    }
  }

  /** Appending copies of one record is appending it once, or nothing. */
  lemma {:induction false} AppendNewSame(l: seq<Evidence>, es: seq<Evidence>, e: Evidence)
    requires forall x :: x in es ==> x == e
    ensures AppendNew(l, es) == if es == [] then l else AddNew(l, e)
    decreases |es|
  {
    if es != [] {
      var init := es[..|es| - 1];
      assert forall x :: x in init ==> x in es;
      AppendNewSame(l, init, e);
      assert es[|es| - 1] in es;
    }
  }

  /**
   * `populate_container`: for every feature and every disease, the record is
   * merged into `container[feature]` through `get_criteria_disease_dict`.
   */
  method PopulateContainer(fid: string, fname: string, fnotes: Option<Notes>,
                           features: seq<string>, diseases: seq<Disease>, c: Container)
    returns (r: Container)
    ensures r == MergeAll(c, PopulateTriples(features, diseases, GetCriteriaDict(fid, fname, fnotes)))
  {
    var e := GetCriteriaDict(fid, fname, fnotes);
    r := c;
    for i := 0 to |features|
      invariant r == MergeAll(c, PopulateTriples(features[..i], diseases, e))
    {
      assert features[..i + 1][..i] == features[..i];
      MergeAllConcat(c, PopulateTriples(features[..i], diseases, e), FeatureTriples(features[i], diseases, e));
      r := PopulateFeature(features[i], diseases, e, r);
    }
    assert features[..|features|] == features;
  }

  /** The inner loop of population: feature `f` gets `e` for each disease in turn. */
  method PopulateFeature(f: string, diseases: seq<Disease>, e: Evidence, c: Container) returns (r: Container)
    ensures r == MergeAll(c, FeatureTriples(f, diseases, e))
  {
    r := c;
    for j := 0 to |diseases|
      invariant r == MergeAll(c, FeatureTriples(f, diseases[..j], e))
    {
      assert diseases[..j + 1][..j] == diseases[..j];
      MergeAllSnoc(c, FeatureTriples(f, diseases[..j], e), Triple(Some(f), diseases[j], e));
      assert [diseases[j]][..0] == [];
      var row := GetCriteriaDiseaseDict([diseases[j]], e, RowOf(r, Some(f)));
      r := r.Put(Some(f), row);
    }
    assert diseases[..|diseases|] == diseases;
  }

  /** Population of one feature with one disease is a single merge. */
  lemma PopulateSingle(f: string, d: Disease, e: Evidence)
    ensures PopulateTriples([f], [d], e) == [Triple(Some(f), d, e)]
  {
    assert [f][..0] == [] && [d][..0] == [];
    assert FeatureTriples(f, [d], e) == FeatureTriples(f, [], e) + [Triple(Some(f), d, e)];
    assert PopulateTriples([f], [d], e) == PopulateTriples([], [d], e) + FeatureTriples(f, [d], e);
  }

  /**
   * What population does to one list: the record is added to the list of every
   * given feature for every given disease, unless already there; every other
   * list is unchanged.
   */
  lemma PopulateEffect(c: Container, fs: seq<string>, ds: seq<Disease>, e: Evidence, f: FeatureKey, d: Disease)
    ensures ListOf(MergeAll(c, PopulateTriples(fs, ds, e)), f, d) ==
              if f.Some? && f.value in fs && d in ds then AddNew(ListOf(c, f, d), e) else ListOf(c, f, d)
  {
    var ts := PopulateTriples(fs, ds, e);
    MergeAllList(c, ts, f, d);
    var es := Stream(ts, f, d);
    StreamMembers(ts, f, d);
    PopulateTriplesMembers(fs, ds, e);
    assert forall x :: x in es ==> x == e;
    AppendNewSame(ListOf(c, f, d), es, e);
    if f.Some? && f.value in fs && d in ds {
      assert Triple(f, d, e) in ts;
      assert e in es;
    } else {
      forall t | t in ts ensures !(t.feature == f && t.disease == d) {}
      StreamEmpty(ts, f, d);
    }
  }

  /** A feature gains a row only when it is given and there is at least one disease. */
  lemma PopulateKeys(c: Container, fs: seq<string>, ds: seq<Disease>, e: Evidence, f: FeatureKey)
    ensures f in MergeAll(c, PopulateTriples(fs, ds, e)).vals <==> f in c.vals || (f.Some? && f.value in fs && ds != [])
  {
    var ts := PopulateTriples(fs, ds, e);
    MergeAllKeys(c, ts);
    PopulateTriplesMembers(fs, ds, e);
    var named := exists i :: 0 <= i < |ts| && ts[i].feature == f;
    if f.Some? && f.value in fs && ds != [] {
      var t := Triple(f, ds[0], e);
      assert t in ts;
      var i :| 0 <= i < |ts| && ts[i] == t;
      assert named;
    }
    if named {
      var i :| 0 <= i < |ts| && ts[i].feature == f;
      var t := ts[i];
      assert t in ts;
      assert t.disease in ds;
    }
  }

  /** An empty feature list or an empty disease list leaves the container as it was. */
  lemma {:induction false} PopulateNothing(c: Container, fs: seq<string>, ds: seq<Disease>, e: Evidence)
    requires fs == [] || ds == []
    ensures PopulateTriples(fs, ds, e) == []
    ensures MergeAll(c, PopulateTriples(fs, ds, e)) == c
    decreases |fs|
  {
    if fs != [] {
      PopulateNothing(c, fs[..|fs| - 1], ds, e);
    }
  }

  // ---------------------------------------------------------------------------
  // Disease tiers and score

  /** The pair `(core, other)` of disease codes. */
  datatype Tiers = Tiers(core: seq<Disease>, other: seq<Disease>)

  /** The tier pair that scoring and the fan-out unpack: tier 1 and tier 2. */
  function DiseaseTiers(): (t: Tiers)
    ensures t.core == CriteriaManager.GetAvailableDiseases(Some(1))
    ensures t.other == CriteriaManager.GetAvailableDiseases(Some(2))
    ensures t.core + t.other == CriteriaManager.GetAvailableDiseases(None)
  {
    Tiers(CriteriaManager.Tier1, CriteriaManager.Tier2)
  }

  /** The weight of one code: 10 for a core code, 5 for another known code, 0 otherwise. */
  function Weight(t: Tiers, d: Disease): int {
    if d in t.core then 10 else if d in t.other then 5 else 0
  }

  function Score(t: Tiers, ds: seq<Disease>): int
    decreases |ds|
  {
    if ds == [] then 0 else Score(t, ds[..|ds| - 1]) + Weight(t, ds[|ds| - 1])
  }

  /** `calculate_score(disease_list)` with the tier pair. */
  method CalculateScore(diseaseList: seq<Disease>) returns (score: int)
    ensures score == Score(DiseaseTiers(), diseaseList)
    ensures 0 <= score <= 10 * |diseaseList|
  {
    var tiers := DiseaseTiers();
    score := 0;
    for i := 0 to |diseaseList|
      invariant score == Score(tiers, diseaseList[..i])
    {
      assert diseaseList[..i + 1][..i] == diseaseList[..i];
      var diseaseKey := diseaseList[i];
      if diseaseKey in tiers.core {
        score := score + 10;
      } else if diseaseKey in tiers.other {
        score := score + 5;
      } else {
        score := score + 0;
      }
    }
    assert diseaseList[..|diseaseList|] == diseaseList;
    ScoreBounds(tiers, diseaseList);
  }

  lemma {:induction false} ScoreBounds(t: Tiers, ds: seq<Disease>)
    ensures 0 <= Score(t, ds) <= 10 * |ds|
    decreases |ds|
  {
    if ds != [] {
      ScoreBounds(t, ds[..|ds| - 1]);
    }
  }

  /** The score of a concatenation is the sum of the scores. */
  lemma {:induction false} ScoreAppend(t: Tiers, a: seq<Disease>, b: seq<Disease>)
    ensures Score(t, a + b) == Score(t, a) + Score(t, b)
    decreases |b|
  {
    if b == [] {
      assert a + b == a;
    } else {
      assert (a + b)[..|a + b| - 1] == a + b[..|b| - 1];
      ScoreAppend(t, a, b[..|b| - 1]);
    }
  }

  /** Taking the last element off `a` and an equal one off `b` keeps the multisets equal. */
  lemma MultisetRemove<T>(a: seq<T>, b: seq<T>, i: nat)
    requires a != [] && multiset(a) == multiset(b)
    requires i < |b| && b[i] == a[|a| - 1]
    ensures multiset(a[..|a| - 1]) == multiset(b[..i] + b[i + 1..])
  {
    var x := a[|a| - 1];
    var init := a[..|a| - 1];
    var rest := b[..i] + b[i + 1..];
    assert a == init + [x];
    assert b == b[..i] + [x] + b[i + 1..];
    assert multiset(b) == multiset(b[..i]) + multiset{x} + multiset(b[i + 1..]);
    assert multiset(rest) == multiset(b[..i]) + multiset(b[i + 1..]);
    assert multiset(a) == multiset(init) + multiset{x};
    forall y ensures multiset(init)[y] == multiset(rest)[y] {
      assert multiset(a)[y] == multiset(b)[y];
    }
  }

  /** The score of `b` is its score without element `i` plus that element's weight. */
  lemma ScoreRemove(t: Tiers, b: seq<Disease>, i: nat)
    requires i < |b|
    ensures Score(t, b) == Score(t, b[..i] + b[i + 1..]) + Weight(t, b[i])
  {
    ScoreAppend(t, b[..i], [b[i]] + b[i + 1..]);
    ScoreAppend(t, [b[i]], b[i + 1..]);
    ScoreAppend(t, b[..i], b[i + 1..]);
    assert b[..i] + ([b[i]] + b[i + 1..]) == b;
    assert Score(t, [b[i]]) == Weight(t, b[i]);
  }

  /** The score does not depend on the order of the codes. */
  lemma {:induction false} ScorePermutation(t: Tiers, a: seq<Disease>, b: seq<Disease>)
    requires multiset(a) == multiset(b)
    ensures Score(t, a) == Score(t, b)
    decreases |a|
  {
    if a != [] {
      var x := a[|a| - 1];
      assert x in multiset(b);
      var i :| 0 <= i < |b| && b[i] == x;
      MultisetRemove(a, b, i);
      ScorePermutation(t, a[..|a| - 1], b[..i] + b[i + 1..]);
      ScoreRemove(t, b, i);
    }
  }

  /** The worked examples: no codes score 0, and `AA` with `T1D` scores 15. */
  lemma ScoreExamples()
    ensures Score(DiseaseTiers(), []) == 0
    ensures Score(DiseaseTiers(), ["AA", "T1D"]) == 15
  {
    var t := DiseaseTiers();
    assert "T1D" in t.core;
    assert "AA" !in t.core && "AA" in t.other;
    assert ["AA", "T1D"][..1] == ["AA"];
  }

  // ---------------------------------------------------------------------------
  // The tier unpacking as written

  /**
   * `(core, other) = get_available_diseases()` as written, at the head of both
   * `calculate_score` and `tag_feature_to_all_diseases`: Python unpacks a list
   * into two names only when it has exactly two elements.
   */
  function UnpackAvailableDiseasesAsWritten(): Result<(Disease, Disease), Error> {
    var codes := CriteriaManager.GetAvailableDiseases(None);
    if |codes| == 2 then Ok((codes[0], codes[1])) else Err(ValueError("too many values to unpack (expected 2)"))
  }

  /**
   * The call without a tier returns all twenty codes, so the unpacking raises
   * on every call; the pair of tier lists used instead gives `AA` with `T1D` 15.
   */
  lemma UnpackAvailableDiseasesAsWrittenFails()
    ensures |CriteriaManager.GetAvailableDiseases(None)| == 20
    ensures UnpackAvailableDiseasesAsWritten().Err?
    ensures Score(DiseaseTiers(), ["AA", "T1D"]) == 15
  {
    ScoreExamples();
  }

  // ---------------------------------------------------------------------------
  // Fan-out to every available disease

  /** The codes of both tiers, core first. */
  function AllDiseases(): (r: seq<Disease>)
    ensures r == CriteriaManager.GetAvailableDiseases(None)
  {
    DiseaseTiers().core + DiseaseTiers().other
  }

  /** The merges of the fan-out: feature `f` under each of `ds`, with `{fid: d, fname: d}`. */
  function FanOutTriples(f: FeatureKey, ds: seq<Disease>): seq<Triple>
    decreases |ds|
  {
    if ds == [] then []
    else
      var d := ds[|ds| - 1];
      FanOutTriples(f, ds[..|ds| - 1]) + [Triple(f, d, GetCriteriaDict(d, d, None))]
  }

  lemma {:induction false} FanOutTriplesMembers(f: FeatureKey, ds: seq<Disease>)
    ensures forall t :: t in FanOutTriples(f, ds) <==>
              t.feature == f && t.disease in ds && t.evidence == Evidence(t.disease, t.disease, None)
    decreases |ds|
  {
    if ds != [] {
      FanOutTriplesMembers(f, ds[..|ds| - 1]);
      assert ds == ds[..|ds| - 1] + [ds[|ds| - 1]];
    }
  }

  /** `tag_feature_to_all_diseases(feature_id, ...)` with the tier pair. */
  method TagFeatureToAllDiseases(featureId: FeatureKey, c: Container) returns (r: Container)
    ensures r == MergeAll(c, FanOutTriples(featureId, AllDiseases()))
  {
    var tiers := DiseaseTiers();
    r := TagFeatureToDiseases(featureId, tiers.core + tiers.other, c);
  }

  /** The loop of `tag_feature_to_all_diseases` over the given codes. */
  method TagFeatureToDiseases(featureId: FeatureKey, allDiseases: seq<Disease>, c: Container) returns (r: Container)
    ensures r == MergeAll(c, FanOutTriples(featureId, allDiseases))
  {
    r := c;
    for i := 0 to |allDiseases|
      invariant r == MergeAll(c, FanOutTriples(featureId, allDiseases[..i]))
    {
      assert allDiseases[..i + 1][..i] == allDiseases[..i];
      var disease := allDiseases[i];
      var criteriaDict := GetCriteriaDict(disease, disease, None);
      MergeAllSnoc(c, FanOutTriples(featureId, allDiseases[..i]), Triple(featureId, disease, criteriaDict));
      assert [disease][..0] == [];
      var row;
      if featureId in r.vals && r.vals[featureId] != EmptyRow {
        row := GetCriteriaDiseaseDict([disease], criteriaDict, r.vals[featureId]);
      } else {
        row := GetCriteriaDiseaseDict([disease], criteriaDict, EmptyRow);
      }
      r := r.Put(featureId, row);
    }
    assert allDiseases[..|allDiseases|] == allDiseases;
  }

  /**
   * After the fan-out over `ds`, each list of the feature under a code of `ds`
   * holds `{fid: d, fname: d}`, added at the end if it was missing; every other
   * list, and every other feature's row, is unchanged.
   */
  lemma FanOutEffect(c: Container, f: FeatureKey, ds: seq<Disease>, g: FeatureKey, d: Disease)
    ensures ListOf(MergeAll(c, FanOutTriples(f, ds)), g, d) ==
              if g == f && d in ds then AddNew(ListOf(c, g, d), Evidence(d, d, None)) else ListOf(c, g, d)
    ensures g != f ==> RowOf(MergeAll(c, FanOutTriples(f, ds)), g) == RowOf(c, g)
  {
    var ts := FanOutTriples(f, ds);
    var e := Evidence(d, d, None);
    MergeAllList(c, ts, g, d);
    var es := Stream(ts, g, d);
    StreamMembers(ts, g, d);
    FanOutTriplesMembers(f, ds);
    assert forall x :: x in es ==> x == e;
    AppendNewSame(ListOf(c, g, d), es, e);
    if g == f && d in ds {
      assert Triple(f, d, e) in ts;
      assert e in es;
    } else {
      forall t | t in ts ensures !(t.feature == g && t.disease == d) {}
      StreamEmpty(ts, g, d);
    }
    if g != f {
      forall i | 0 <= i < |ts| ensures ts[i].feature != g {
        assert ts[i] in ts;
      }
      MergeAllUntouched(c, ts, g);
    }
  }

  /** With the tier pair, the fan-out tags the feature with all twenty codes. */
  lemma FanOutTagsEveryDisease(featureId: FeatureKey, c: Container)
    ensures forall d :: d in AllDiseases() ==>
              Evidence(d, d, None) in ListOf(MergeAll(c, FanOutTriples(featureId, AllDiseases())), featureId, d)
  {
    forall d | d in AllDiseases()
      ensures Evidence(d, d, None) in ListOf(MergeAll(c, FanOutTriples(featureId, AllDiseases())), featureId, d)
    {
      FanOutEffect(c, featureId, AllDiseases(), featureId, d);
    }
  }

  // ---------------------------------------------------------------------------
  // The flush

  /** A bulk load is sent once the counter exceeds this many features. */
  const BulkThreshold := 5000
  /** So each full batch holds this many features. */
  const BatchSize := BulkThreshold + 1

  /** One feature of a bulk load: the index directive and the finished row. */
  datatype BulkAction = BulkAction(index: string, docType: string, id: string, row: Row)

  predicate Reserved(k: string) {
    k == "score" || k == "disease_tags"
  }

  /** `list(row.keys())` without the two keys the flush writes. */
  function DiseaseKeys(ks: seq<Disease>): (r: seq<Disease>)
    ensures forall x :: x in r <==> x in ks && !Reserved(x)
    ensures Distinct(ks) ==> Distinct(r)
    decreases |ks|
  {
    if ks == [] then []
    else
      var rest := DiseaseKeys(ks[..|ks| - 1]);
      assert forall x :: x in ks[..|ks| - 1] ==> x in ks;
      assert ks == ks[..|ks| - 1] + [ks[|ks| - 1]];
      if Reserved(ks[|ks| - 1]) then rest else rest + [ks[|ks| - 1]]
  }

  /** The row as the flush leaves it: its tags are its disease keys, its score theirs. */
  function FinalizeRow(row: Row): Row {
    var tags := DiseaseKeys(row.tags.keys);
    row.(score := Some(Score(DiseaseTiers(), tags)), diseaseTags := Some(tags))
  }

  /** The rows of `c`, with those of the non-`None` keys in `ks` finalised. */
  function FinalizedRows(c: Container, ks: seq<FeatureKey>): map<FeatureKey, Row> {
    map f | f in c.vals :: if f.Some? && f in ks then FinalizeRow(c.vals[f]) else c.vals[f]
  }

  /** The container after the flush. */
  function Finalize(c: Container): Container {
    ODict(c.keys, FinalizedRows(c, c.keys))
  }

  /** The bulk actions for the keys `ks`, in order, skipping `None`. */
  function Actions(idx: string, idxType: string, c: Container, ks: seq<FeatureKey>): seq<BulkAction>
    decreases |ks|
  {
    if ks == [] then []
    else
      var f := ks[|ks| - 1];
      Actions(idx, idxType, c, ks[..|ks| - 1])
        + (if f.Some? then [BulkAction(idx, idxType, f.value, FinalizeRow(RowOf(c, f)))] else [])
  }

  /** `s` cut into consecutive batches of `BatchSize`, the last one possibly shorter. */
  function Batches<T>(s: seq<T>): seq<seq<T>>
    decreases |s|
  {
    if s == [] then [] else if |s| <= BatchSize then [s] else [s[..BatchSize]] + Batches(s[BatchSize..])
  }

  function Flatten<T>(ss: seq<seq<T>>): seq<T>
    decreases |ss|
  {
    if ss == [] then [] else ss[0] + Flatten(ss[1..])
  }

  lemma {:induction false} FlattenSnoc<T>(ss: seq<seq<T>>, s: seq<T>)
    ensures Flatten(ss + [s]) == Flatten(ss) + s
    decreases |ss|
  {
    if ss == [] {
      assert [s][1..] == [];
    } else {
      assert (ss + [s])[1..] == ss[1..] + [s];
      FlattenSnoc(ss[1..], s);
    }
  }

  /** Full batches, and then optionally one short piece, are cut back into exactly those batches. */
  lemma {:induction false} BatchesOfFull<T>(bs: seq<seq<T>>, b: seq<T>)
    requires forall j :: 0 <= j < |bs| ==> |bs[j]| == BatchSize
    requires |b| <= BatchSize
    ensures Batches(Flatten(bs) + b) == bs + (if b == [] then [] else [b])
    decreases |bs|
  {
    if bs == [] {
      assert Flatten(bs) + b == b;
    } else {
      var rest := Flatten(bs[1..]) + b;
      BatchesOfFull(bs[1..], b);
      assert Flatten(bs) + b == bs[0] + rest;
      if rest == [] {
        assert bs[1..] == [];
        assert bs[0] + rest == bs[0];
      } else {
        assert (bs[0] + rest)[..BatchSize] == bs[0];
        assert (bs[0] + rest)[BatchSize..] == rest;
      }
    }
  }

  /**
   * The batches give back the sequence; all are non-empty, all but the last
   * hold exactly `BatchSize`, and there are `ceil(|s| / BatchSize)` of them.
   */
  lemma {:induction false} BatchesShape<T>(s: seq<T>)
    ensures Flatten(Batches(s)) == s
    ensures forall i :: 0 <= i < |Batches(s)| ==> 0 < |Batches(s)[i]| <= BatchSize
    ensures forall i :: 0 <= i < |Batches(s)| - 1 ==> |Batches(s)[i]| == BatchSize
    ensures |Batches(s)| == (|s| + BatchSize - 1) / BatchSize
    decreases |s|
  {
    if |s| > BatchSize {
      var rest := Batches(s[BatchSize..]);
      BatchesShape(s[BatchSize..]);
      assert Batches(s) == [s[..BatchSize]] + rest;
      assert ([s[..BatchSize]] + rest)[1..] == rest;
      assert s[..BatchSize] + s[BatchSize..] == s;
    }
  }

  /** Finalising one more key changes that key's row only. */
  lemma FinalizedRowsStep(c: Container, ks: seq<FeatureKey>, f: FeatureKey)
    requires f in c.vals && f !in ks
    ensures FinalizedRows(c, ks + [f]) == if f.Some? then FinalizedRows(c, ks)[f := FinalizeRow(c.vals[f])] else FinalizedRows(c, ks)
  {
    var m := FinalizedRows(c, ks + [f]);
    var m0 := FinalizedRows(c, ks);
    forall g | g in c.vals ensures g in ks + [f] <==> g in ks || g == f {}
    if f.Some? {
      assert m == m0[f := FinalizeRow(c.vals[f])];
    } else {
      assert m == m0;
    }
  }

  /** One step of the flush: the container and the actions with the first `i` keys done, then key `i`. */
  lemma FlushStep(c: Container, i: nat, idx: string, idxType: string)
    requires c.Valid() && i < |c.keys|
    ensures var f := c.keys[i];
      var before := ODict(c.keys, FinalizedRows(c, c.keys[..i]));
      var after := ODict(c.keys, FinalizedRows(c, c.keys[..i + 1]));
      && f in before.vals && before.vals[f] == c.vals[f]
      && (f.Some? ==> before.Put(f, FinalizeRow(c.vals[f])) == after)
      && (f.None? ==> before == after)
      && Actions(idx, idxType, c, c.keys[..i + 1]) ==
           Actions(idx, idxType, c, c.keys[..i]) + (if f.Some? then [BulkAction(idx, idxType, f.value, FinalizeRow(c.vals[f]))] else [])
  {
    var f := c.keys[i];
    assert c.keys[..i + 1] == c.keys[..i] + [f];
    assert f !in c.keys[..i];
    FinalizedRowsStep(c, c.keys[..i], f);
    ActionsSnoc(idx, idxType, c, c.keys[..i], f);
  }

  lemma ActionsSnoc(idx: string, idxType: string, c: Container, ks: seq<FeatureKey>, f: FeatureKey)
    ensures Actions(idx, idxType, c, ks + [f]) ==
              Actions(idx, idxType, c, ks) + (if f.Some? then [BulkAction(idx, idxType, f.value, FinalizeRow(RowOf(c, f)))] else [])
  {
    assert (ks + [f])[..|ks|] == ks;
  }

  /** The row's disease keys become its `disease_tags`, and their score its `score`. */
  method TagRow(row: Row) returns (r: Row)
    ensures r == FinalizeRow(row)
  {
    var diseaseTags := DiseaseKeys(row.tags.keys);
    var score := CalculateScore(diseaseTags);
    r := row.(score := Some(score), diseaseTags := Some(diseaseTags));
  }

  /**
   * One line of the bulk buffer: the action is appended and, once the buffer
   * holds more than `BulkThreshold` lines, it is sent as a batch and emptied.
   */
  method BufferAction(batches: seq<seq<BulkAction>>, jsonData: seq<BulkAction>, lineNum: nat, action: BulkAction)
    returns (batches': seq<seq<BulkAction>>, jsonData': seq<BulkAction>, lineNum': nat)
    requires forall j :: 0 <= j < |batches| ==> |batches[j]| == BatchSize
    requires lineNum == |jsonData| <= BulkThreshold
    ensures Flatten(batches') + jsonData' == Flatten(batches) + jsonData + [action]
    ensures forall j :: 0 <= j < |batches'| ==> |batches'[j]| == BatchSize
    ensures lineNum' == |jsonData'| <= BulkThreshold
  {
    batches', jsonData', lineNum' := batches, jsonData + [action], lineNum + 1;
    if lineNum' > BulkThreshold {
      lineNum' := 0;
      FlattenSnoc(batches, jsonData');
      batches' := batches + [jsonData'];
      jsonData' := [];
    }
  }

  /**
   * `load_result_container(result_container, idx, idx_type)`: every non-`None`
   * feature's row gets its disease tags and score, and the rows are sent in
   * bulk loads of `BatchSize`, the remainder in a final load.
   */
  method LoadResultContainer(c: Container, idx: string, idxType: string)
    returns (flushed: Container, batches: seq<seq<BulkAction>>)
    requires c.Valid()
    ensures flushed == Finalize(c)
    ensures batches == Batches(Actions(idx, idxType, c, c.keys))
  {
    flushed := c;
    batches := [];
    var jsonData: seq<BulkAction> := [];
    var lineNum := 0;
    assert FinalizedRows(c, c.keys[..0]) == c.vals;
    for i := 0 to |c.keys|
      invariant flushed == ODict(c.keys, FinalizedRows(c, c.keys[..i]))
      invariant Flatten(batches) + jsonData == Actions(idx, idxType, c, c.keys[..i])
      invariant forall j :: 0 <= j < |batches| ==> |batches[j]| == BatchSize
      invariant lineNum == |jsonData| <= BulkThreshold
    {
      var featureId := c.keys[i];
      FlushStep(c, i, idx, idxType);
      if featureId.Some? {
        var row := TagRow(flushed.vals[featureId]);
        flushed := flushed.Put(featureId, row);
        batches, jsonData, lineNum := BufferAction(batches, jsonData, lineNum, BulkAction(idx, idxType, featureId.value, row));
      }
    }
    assert c.keys[..|c.keys|] == c.keys;
    BatchesOfFull(batches, jsonData);
    if lineNum > 0 {
      batches := batches + [jsonData];
    }
  }

  /** The actions of a key list: its non-`None` keys, in order, each with its finalised row. */
  lemma {:induction false} ActionsContents(idx: string, idxType: string, c: Container, ks: seq<FeatureKey>)
    ensures forall a :: a in Actions(idx, idxType, c, ks) ==>
              Some(a.id) in ks && a.index == idx && a.docType == idxType && a.row == FinalizeRow(RowOf(c, Some(a.id)))
    ensures forall x :: Some(x) in ks ==> exists a :: a in Actions(idx, idxType, c, ks) && a.id == x
    ensures Distinct(ks) ==> forall i, j :: 0 <= i < j < |Actions(idx, idxType, c, ks)| ==>
                               Actions(idx, idxType, c, ks)[i].id != Actions(idx, idxType, c, ks)[j].id
    decreases |ks|
  {
    if ks != [] {
      var init := ks[..|ks| - 1];
      var f := ks[|ks| - 1];
      ActionsContents(idx, idxType, c, init);
      assert ks == init + [f];
      var prev := Actions(idx, idxType, c, init);
      if f.Some? {
        var a := BulkAction(idx, idxType, f.value, FinalizeRow(RowOf(c, f)));
        assert Actions(idx, idxType, c, ks) == prev + [a];
        assert a in Actions(idx, idxType, c, ks);
        if Distinct(ks) {
          assert Distinct(init);
          forall j | 0 <= j < |prev| ensures prev[j].id != f.value {
            assert prev[j] in prev;
          }
        }
      }
      forall x | Some(x) in ks ensures exists a :: a in Actions(idx, idxType, c, ks) && a.id == x {
        if Some(x) in init {
          var a :| a in prev && a.id == x;
          assert a in Actions(idx, idxType, c, ks);
        }
      }
    }
  }

  /**
   * Every non-`None` feature of a container is sent exactly once over all the
   * bulk loads, with its finalised row; the loads are full batches of
   * `BatchSize` except the last, and there are `ceil(N / BatchSize)` of them.
   */
  lemma FlushSendsEachFeatureOnce(idx: string, idxType: string, c: Container)
    requires c.Valid()
    ensures var all := Actions(idx, idxType, c, c.keys);
      && Flatten(Batches(all)) == all
      && (forall x :: Some(x) in c.vals <==> exists a :: a in all && a.id == x)
      && (forall i, j :: 0 <= i < j < |all| ==> all[i].id != all[j].id)
      && (forall a :: a in all ==> a.row == FinalizeRow(c.vals[Some(a.id)]))
      && |Batches(all)| == (|all| + BatchSize - 1) / BatchSize
      && (forall i :: 0 <= i < |Batches(all)| - 1 ==> |Batches(all)[i]| == BatchSize)
  {
    ActionsContents(idx, idxType, c, c.keys);
    BatchesShape(Actions(idx, idxType, c, c.keys));
  }

  /** Each finished row's tags are exactly its disease keys, once each, and its score is theirs. */
  lemma FinalizeRowTags(row: Row)
    requires row.tags.Valid()
    ensures var r := FinalizeRow(row);
      && r.tags == row.tags
      && r.diseaseTags.Some? && Distinct(r.diseaseTags.value)
      && (forall d :: d in r.diseaseTags.value <==> d in row.tags.vals && !Reserved(d))
      && r.score == Some(Score(DiseaseTiers(), r.diseaseTags.value))
  {
  }

  /** Flushing a flushed container again changes no row, and sends the same rows. */
  lemma FlushIdempotent(idx: string, idxType: string, c: Container)
    ensures Finalize(Finalize(c)) == Finalize(c)
    ensures Actions(idx, idxType, Finalize(c), c.keys) == Actions(idx, idxType, c, c.keys)
  {
    ActionsOfFinalized(idx, idxType, c, c.keys);
  }

  lemma {:induction false} ActionsOfFinalized(idx: string, idxType: string, c: Container, ks: seq<FeatureKey>)
    ensures Actions(idx, idxType, Finalize(c), ks) == Actions(idx, idxType, c, ks)
    decreases |ks|
  {
    if ks != [] {
      ActionsOfFinalized(idx, idxType, c, ks[..|ks| - 1]);
    }
  }

  // ---------------------------------------------------------------------------
  // Interval overlap behind `fetch_overlapping_features`

  /** One `build_info` entry of a located document. */
  datatype BuildInfo = BuildInfo(build: string, seqid: string, start: int, end: int)

  /** A located document: its id and its `build_info` entries. */
  datatype LocatedDoc = LocatedDoc(id: string, buildInfo: seq<BuildInfo>)

  /** The range filter: the entry starts in `[start, end]`, ends in it, or covers it. */
  predicate RangeFilter(b: BuildInfo, start: int, end: int) {
    || (start <= b.start <= end)
    || (start <= b.end <= end)
    || (b.start <= start && b.end >= end)
  }

  /** The nested query: one entry with the build, the sequence and the range filter. */
  predicate EntryMatches(b: BuildInfo, build: string, seqid: string, start: int, end: int) {
    b.build == build && b.seqid == seqid && RangeFilter(b, start, end)
  }

  /** Inclusive intersection of `[b.start, b.end]` with `[start, end]`. */
  predicate Intersects(b: BuildInfo, start: int, end: int) {
    b.start <= end && start <= b.end
  }

  /** For well-formed intervals the three cases are exactly inclusive intersection. */
  lemma RangeFilterIsIntersection(b: BuildInfo, start: int, end: int)
    requires b.start <= b.end && start <= end
    ensures RangeFilter(b, start, end) <==> Intersects(b, start, end)
  {
  }

  /** Every intersecting entry passes the filter, well-formed or not. */
  lemma IntersectionPassesFilter(b: BuildInfo, start: int, end: int)
    requires Intersects(b, start, end)
    ensures RangeFilter(b, start, end)
  {
  }

  /** An entry whose start lies after its end can pass the filter without intersecting. */
  lemma MalformedEntryPassesFilter()
    ensures RangeFilter(BuildInfo("38", "1", 10, 5), 0, 7) && !Intersects(BuildInfo("38", "1", 10, 5), 0, 7)
  {
  }

  /** Intervals that only touch at an endpoint overlap. */
  lemma TouchingEndpointsOverlap(b: BuildInfo, start: int, end: int)
    requires b.start <= b.end && start <= end
    requires b.end == start || b.start == end
    ensures RangeFilter(b, start, end)
  {
  }

  predicate DocOverlaps(doc: LocatedDoc, build: string, seqid: string, start: int, end: int) {
    exists i :: 0 <= i < |doc.buildInfo| && EntryMatches(doc.buildInfo[i], build, seqid, start, end)
  }

  /** `fetch_overlapping_features(build, seqid, start, end)` over the documents of the searched index. */
  function FetchOverlappingFeatures(docs: seq<LocatedDoc>, build: string, seqid: string, start: int, end: int)
    : (r: seq<LocatedDoc>)
    ensures forall d :: d in r <==> d in docs && DocOverlaps(d, build, seqid, start, end)
    ensures |r| <= |docs|
    decreases |docs|
  {
    if docs == [] then []
    else
      var rest := FetchOverlappingFeatures(docs[..|docs| - 1], build, seqid, start, end);
      var last := docs[|docs| - 1];
      assert docs == docs[..|docs| - 1] + [last];
      if DocOverlaps(last, build, seqid, start, end) then rest + [last] else rest
  }

  // ---------------------------------------------------------------------------
  // Query selection

  /** The query a section scans with. */
  datatype Query =
    | RangeOverlapQuery(seqid: string, start: int, end: int, fieldList: string,
                        seqidParam: string, startParam: string, endParam: string)
    | MatchAllQuery(sources: seq<string>)

  /** The major histocompatibility complex: chromosome 6 from 25,000,000 to 35,000,000. */
  const MhcSeqid := "6"
  const MhcStart := 25000000
  const MhcEnd := 35000000

  predicate IsMhcSection(section: string) {
    section == "is_gene_in_mhc" || section == "is_marker_in_mhc"
  }

  /** `get_elastic_query(section, config)`. */
  function GetElasticQuery(section: string, config: map<string, map<string, string>>): (r: Result<Query, Error>)
    ensures section !in config ==> r == Err(KeyError(section))
    ensures section in config && !IsMhcSection(section) ==>
              r.Ok? && r.value.MatchAllQuery?
              && r.value.sources == (if "source_fields" in config[section] then Text.Split(config[section]["source_fields"], ',') else [])
    ensures section in config && IsMhcSection(section) ==>
              var opts := config[section];
              && (r.Ok? <==> "source_fields" in opts && "seqid_param" in opts && "start_param" in opts && "end_param" in opts)
              && (r.Ok? ==> r.value == RangeOverlapQuery(MhcSeqid, MhcStart, MhcEnd, opts["source_fields"],
                                                         opts["seqid_param"], opts["start_param"], opts["end_param"]))
              && (r.Err? ==> r.error == KeyError(FirstMissing(opts, ["source_fields", "seqid_param", "start_param", "end_param"])))
  {
    if section !in config then Err(KeyError(section))
    else
      var sectionConfig := config[section];
      var sourceFields := if "source_fields" in sectionConfig then Text.Split(sectionConfig["source_fields"], ',') else [];
      if IsMhcSection(section) then
        match Lookup(sectionConfig, "source_fields")
        case Err(err) => Err(err)
        case Ok(fieldList) =>
          match Lookup(sectionConfig, "seqid_param")
          case Err(err) => Err(err)
          case Ok(seqidParam) =>
            match Lookup(sectionConfig, "start_param")
            case Err(err) => Err(err)
            case Ok(startParam) =>
              match Lookup(sectionConfig, "end_param")
              case Err(err) => Err(err)
              case Ok(endParam) =>
                Ok(RangeOverlapQuery(MhcSeqid, MhcStart, MhcEnd, fieldList, seqidParam, startParam, endParam))
      else
        Ok(MatchAllQuery(sourceFields))
  }

  /** The first of `keys` missing from `m`, or the empty string when none is. */
  function FirstMissing(m: map<string, string>, keys: seq<string>): string
    decreases |keys|
  {
    if keys == [] then "" else if keys[0] !in m then keys[0] else FirstMissing(m, keys[1..])
  }
}
