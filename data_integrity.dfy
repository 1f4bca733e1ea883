/**
 * The data-integrity helpers that compare the criteria index with the old
 * dossier and criteria exports: reading the disease tags out of an exported
 * row, and comparing a feature's new tags with its old ones.
 */
module DataIntegrity {
  import opened Wrappers
  import opened OrderedDict
  import opened Documents
  import Text

  /** An exported row: column name to cell text, in column order. */
  type Row = ODict<string, string>

  /** The row `process_row_dossier` and `process_row_criteria` build. */
  datatype CurrentRow = CurrentRow(name: string, primaryId: string, diseaseTags: seq<string>)

  const ScoreSuffix: string := "Hs score"

  /** A dossier column that carries a disease score: its name ends in `Hs score`. */
  predicate IsScoreColumn(key: string) {
    Text.EndsWith(key, ScoreSuffix)
  }

  /** The disease code of a score column: the trimmed text before `Hs score`. */
  function DiseaseCode(key: string): string {
    Text.Strip(Text.BeforeFirst(key, ScoreSuffix))
  }

  /** The tags the columns yield, in column order; a column yields at most one. */
  function ColumnTags(keys: seq<string>, vals: map<string, string>, tag: (string, string) -> Option<string>): seq<string>
    requires forall k :: k in keys ==> k in vals
    decreases |keys|
  {
    if keys == [] then []
    else
      var key := keys[|keys| - 1];
      var t := tag(key, vals[key]);
      ColumnTags(keys[..|keys| - 1], vals, tag) + (if t.Some? then [t.value] else [])
  }

  /** A dossier column's tag: the disease code of a score column whose score is not `'0'`. */
  function DossierTag(key: string, cell: string): Option<string> {
    if IsScoreColumn(key) && cell != "0" then Some(DiseaseCode(key)) else None
  }

  /** A criteria column's tag: the column name when its cell is `'Yes'`. */
  function YesTag(key: string, cell: string): Option<string> {
    if cell == "Yes" then Some(key) else None
  }

  /** What a row reader returns, or the error it raises, given the tags it collects. */
  function RowOutcome(row: Row, tags: seq<string>): Result<CurrentRow, Error> {
    if "Name" !in row.vals then Err(KeyError("Name"))
    else if "Primary id" !in row.vals then Err(KeyError("Primary id"))
    else Ok(CurrentRow(row.vals["Name"], row.vals["Primary id"], tags))
  }

  /**
   * `process_row_dossier`: the row's name and primary id, and the disease
   * codes of its non-zero score columns.
   */
  method ProcessRowDossier(row: Row) returns (r: Result<CurrentRow, Error>)
    requires row.Valid()
    ensures r == RowOutcome(row, ColumnTags(row.keys, row.vals, DossierTag))
  {
    if "Name" !in row.vals {
      return Err(KeyError("Name"));
    }
    var name := row.vals["Name"];
    if "Primary id" !in row.vals {
      return Err(KeyError("Primary id"));
    }
    var primaryId := row.vals["Primary id"];
    var diseaseTags: seq<string> := [];
    for i := 0 to |row.keys|
      invariant diseaseTags == ColumnTags(row.keys[..i], row.vals, DossierTag)
    {
      assert row.keys[..i + 1][..i] == row.keys[..i];
      var key := row.keys[i];
      if Text.EndsWith(key, ScoreSuffix) {
        var disCode := Text.Strip(Text.BeforeFirst(key, ScoreSuffix));
        if row.vals[key] != "0" {
          diseaseTags := diseaseTags + [disCode];
        }
      }
    }
    assert row.keys[..|row.keys|] == row.keys;
    return Ok(CurrentRow(name, primaryId, diseaseTags));
  }

  /**
   * `process_row_criteria`: the row's name and primary id, and the names of
   * the columns marked `'Yes'`.
   */
  method ProcessRowCriteria(row: Row) returns (r: Result<CurrentRow, Error>)
    requires row.Valid()
    ensures r == RowOutcome(row, ColumnTags(row.keys, row.vals, YesTag))
  {
    if "Name" !in row.vals {
      return Err(KeyError("Name"));
    }
    var name := row.vals["Name"];
    if "Primary id" !in row.vals {
      return Err(KeyError("Primary id"));
    }
    var primaryId := row.vals["Primary id"];
    var diseaseTags: seq<string> := [];
    for i := 0 to |row.keys|
      invariant diseaseTags == ColumnTags(row.keys[..i], row.vals, YesTag)
    {
      assert row.keys[..i + 1][..i] == row.keys[..i];
      var key := row.keys[i];
      if row.vals[key] == "Yes" {
        diseaseTags := diseaseTags + [key];
      }
    }
    assert row.keys[..|row.keys|] == row.keys;
    return Ok(CurrentRow(name, primaryId, diseaseTags));
  }

  /** A tag is collected exactly when some column yields it; there is at most one tag per column. */
  lemma {:induction false} ColumnTagsMembers(keys: seq<string>, vals: map<string, string>, tag: (string, string) -> Option<string>)
    requires forall k :: k in keys ==> k in vals
    ensures |ColumnTags(keys, vals, tag)| <= |keys|
    ensures forall t :: t in ColumnTags(keys, vals, tag) <==> exists i :: 0 <= i < |keys| && tag(keys[i], vals[keys[i]]) == Some(t)
    decreases |keys|
  {
    if keys != [] {
      var init := keys[..|keys| - 1];
      ColumnTagsMembers(init, vals, tag);
      forall t ensures t in ColumnTags(keys, vals, tag) <==> exists i :: 0 <= i < |keys| && tag(keys[i], vals[keys[i]]) == Some(t) {
        if exists i :: 0 <= i < |keys| && tag(keys[i], vals[keys[i]]) == Some(t) {
          var i :| 0 <= i < |keys| && tag(keys[i], vals[keys[i]]) == Some(t);
          if i < |init| {
            assert init[i] == keys[i];
          }
        }
        if t in ColumnTags(init, vals, tag) {
          var i :| 0 <= i < |init| && tag(init[i], vals[init[i]]) == Some(t);
          assert keys[i] == init[i];
        }
      }
    }
  }

  /** Membership by column name rather than by position. */
  lemma ColumnTagsByKey(keys: seq<string>, vals: map<string, string>, tag: (string, string) -> Option<string>, t: string)
    requires forall k :: k in keys ==> k in vals
    ensures t in ColumnTags(keys, vals, tag) <==> exists k :: k in keys && tag(k, vals[k]) == Some(t)
  {
    ColumnTagsMembers(keys, vals, tag);
    if exists k :: k in keys && tag(k, vals[k]) == Some(t) {
      var k :| k in keys && tag(k, vals[k]) == Some(t);
      var i :| 0 <= i < |keys| && keys[i] == k;
    }
  }

  /**
   * A code is a dossier tag exactly when some column whose name ends in
   * `Hs score` and whose score is not `'0'` has it as trimmed prefix.
   */
  lemma DossierTagsMembers(row: Row, d: string)
    requires row.Valid()
    ensures |ColumnTags(row.keys, row.vals, DossierTag)| <= |row.keys|
    ensures d in ColumnTags(row.keys, row.vals, DossierTag) <==>
              exists k :: k in row.keys && IsScoreColumn(k) && row.vals[k] != "0" && DiseaseCode(k) == d
  {
    ColumnTagsMembers(row.keys, row.vals, DossierTag);
    ColumnTagsByKey(row.keys, row.vals, DossierTag, d);
    forall k | k in row.keys
      ensures DossierTag(k, row.vals[k]) == Some(d) <==> IsScoreColumn(k) && row.vals[k] != "0" && DiseaseCode(k) == d
    {
    }
  }

  /** When a column can only yield its own name, distinct columns yield distinct tags, each one a column. */
  lemma {:induction false} ColumnTagsDistinct(keys: seq<string>, vals: map<string, string>, tag: (string, string) -> Option<string>)
    requires forall k :: k in keys ==> k in vals
    requires Distinct(keys)
    requires forall k, v :: tag(k, v).Some? ==> tag(k, v).value == k
    ensures Distinct(ColumnTags(keys, vals, tag))
    ensures forall t :: t in ColumnTags(keys, vals, tag) ==> t in keys
    decreases |keys|
  {
    if keys != [] {
      var init := keys[..|keys| - 1];
      assert Distinct(init);
      ColumnTagsDistinct(init, vals, tag);
      assert keys[|keys| - 1] !in init;
    }
  }

  /**
   * The `'Yes'` columns are exactly the columns marked `'Yes'`, each once
   * (a row's columns are distinct).
   */
  lemma YesColumnsMembers(row: Row, k: string)
    requires row.Valid()
    ensures Distinct(ColumnTags(row.keys, row.vals, YesTag))
    ensures k in ColumnTags(row.keys, row.vals, YesTag) <==> k in row.vals && row.vals[k] == "Yes"
  {
    ColumnTagsMembers(row.keys, row.vals, YesTag);
    ColumnTagsDistinct(row.keys, row.vals, YesTag);
    if k in row.vals && row.vals[k] == "Yes" {
      var i :| 0 <= i < |row.keys| && row.keys[i] == k;
      assert YesTag(row.keys[i], row.vals[row.keys[i]]) == Some(k);
    }
  }

  /** What `compare_dicts` reports for a feature whose tags differ: the feature id and both tag lists. */
  datatype Mismatch = Mismatch(qid: string, newCriteria: seq<string>, oldCriteria: seq<string>)

  /** The fields of the old export's row that `compare_dicts` reads. */
  datatype OldRow = OldRow(fields: map<string, string>, diseaseTags: Option<seq<string>>)

  /** The elements of a list, as a set (Python's `set(xs)`). */
  function Elements(xs: seq<string>): set<string> {
    set x | x in xs
  }

  /** The upper-cased code of each disease document found for the feature. */
  function UpperCodes(codes: seq<string>): (r: seq<string>)
    ensures |r| == |codes|
    ensures forall i :: 0 <= i < |codes| ==> r[i] == Text.Upper(codes[i])
  {
    Image(codes, Text.Upper)
  }

  /** `[f(x) for x in xs]`. */
  function Image(xs: seq<string>, f: string -> string): (r: seq<string>)
    ensures |r| == |xs|
    ensures forall i :: 0 <= i < |xs| ==> r[i] == f(xs[i])
  {
    seq(|xs|, i requires 0 <= i < |xs| => f(xs[i]))
  }

  /**
   * `compare_dicts`: when the new document's `qid` is the old row's primary
   * id, the new disease codes, upper-cased, are compared as sets with the
   * old row's tags; a difference is reported as a mismatch, anything else
   * as nothing (`{}`). `diseaseCodes` are the codes of the disease documents
   * looked up for the `qid`.
   */
  function CompareDicts(newQid: Option<string>, oldRow: OldRow, primaryIdType: string, diseaseCodes: seq<string>)
    : (r: Result<Option<Mismatch>, Error>)
    ensures newQid.None? ==> r == Err(KeyError("qid"))
    ensures newQid.Some? && primaryIdType !in oldRow.fields ==> r == Err(KeyError(primaryIdType))
    ensures newQid.Some? && primaryIdType in oldRow.fields && newQid.value != oldRow.fields[primaryIdType] ==> r == Ok(None)
    ensures newQid.Some? && primaryIdType in oldRow.fields && newQid.value == oldRow.fields[primaryIdType] ==>
              && (oldRow.diseaseTags.None? ==> r == Err(KeyError("disease_tags")))
              && (oldRow.diseaseTags.Some? ==>
                    && r.Ok?
                    && (r.value.Some? <==> Elements(UpperCodes(diseaseCodes)) != Elements(oldRow.diseaseTags.value))
                    && (r.value.Some? ==> r.value.value == Mismatch(newQid.value, UpperCodes(diseaseCodes), oldRow.diseaseTags.value)))
    ensures r.Ok? && r.value.Some? ==>
              && newQid == Some(r.value.value.qid)
              && oldRow.diseaseTags == Some(r.value.value.oldCriteria)
              && Elements(r.value.value.newCriteria) != Elements(r.value.value.oldCriteria)
  {
    if newQid.None? then Err(KeyError("qid"))
    else if primaryIdType !in oldRow.fields then Err(KeyError(primaryIdType))
    else if newQid.value != oldRow.fields[primaryIdType] then Ok(None)
    else
      var newDiseaseTags := UpperCodes(diseaseCodes);
      if oldRow.diseaseTags.None? then Err(KeyError("disease_tags"))
      else
        var oldDiseaseTags := oldRow.diseaseTags.value;
        if Elements(newDiseaseTags) != Elements(oldDiseaseTags) then Ok(Some(Mismatch(newQid.value, newDiseaseTags, oldDiseaseTags)))
        else Ok(None)
  }

  /**
   * The comparison ignores order, repetition and the case of the new codes:
   * two old tag lists with the same elements give the same verdict, and so
   * do two new code lists that agree once upper-cased.
   */
  lemma CompareDictsSetwise(qid: string, oldA: OldRow, oldB: OldRow, primaryIdType: string,
                            codes1: seq<string>, codes2: seq<string>)
    requires oldA.fields == oldB.fields
    requires oldA.diseaseTags.Some? && oldB.diseaseTags.Some?
    requires Elements(oldA.diseaseTags.value) == Elements(oldB.diseaseTags.value)
    requires forall c :: c in codes1 ==> exists c2 :: c2 in codes2 && Text.Upper(c2) == Text.Upper(c)
    requires forall c :: c in codes2 ==> exists c1 :: c1 in codes1 && Text.Upper(c1) == Text.Upper(c)
    ensures var r1 := CompareDicts(Some(qid), oldA, primaryIdType, codes1);
      var r2 := CompareDicts(Some(qid), oldB, primaryIdType, codes2);
      r1.Ok? == r2.Ok? && (r1.Ok? ==> r1.value.None? == r2.value.None?)
  {
    ImageInside(codes1, codes2, Text.Upper);
    ImageInside(codes2, codes1, Text.Upper);
  }

  /** Each element of `xs` agrees under `f` with one of `ys`, so the image of `xs` is inside that of `ys`. */
  lemma ImageInside(xs: seq<string>, ys: seq<string>, f: string -> string)
    requires forall x :: x in xs ==> exists y :: y in ys && f(y) == f(x)
    ensures Elements(Image(xs, f)) <= Elements(Image(ys, f))
  {
    forall z | z in Elements(Image(xs, f)) ensures z in Elements(Image(ys, f)) {
      var i :| 0 <= i < |xs| && Image(xs, f)[i] == z;
      assert xs[i] in xs;
      var y :| y in ys && f(y) == f(xs[i]);
      var j :| 0 <= j < |ys| && ys[j] == y;
      assert Image(ys, f)[j] == z;
    }
  }

  /** New codes that match the old tags up to case and order produce no report. */
  lemma MatchingTagsNotReported(qid: string, oldRow: OldRow, primaryIdType: string, codes: seq<string>)
    requires primaryIdType in oldRow.fields && oldRow.fields[primaryIdType] == qid
    requires oldRow.diseaseTags.Some?
    requires forall c :: c in codes ==> Text.Upper(c) in oldRow.diseaseTags.value
    requires forall t :: t in oldRow.diseaseTags.value ==> exists c :: c in codes && Text.Upper(c) == t
    ensures CompareDicts(Some(qid), oldRow, primaryIdType, codes) == Ok(None)
  {
    var u := UpperCodes(codes);
    forall x | x in Elements(u) ensures x in Elements(oldRow.diseaseTags.value) {
      var i :| 0 <= i < |u| && u[i] == x;
      assert codes[i] in codes;
    }
    forall t | t in Elements(oldRow.diseaseTags.value) ensures t in Elements(u) {
      var c :| c in codes && Text.Upper(c) == t;
      var i :| 0 <= i < |codes| && codes[i] == c;
      assert u[i] == t;
    }
    assert Elements(u) == Elements(oldRow.diseaseTags.value);
  }
}
