/**
 * The search-store documents the rules read, as typed records. A field the
 * source reads with `doc['x']` or `getattr(doc, 'x')` without a guard is
 * optional here, so that its absence can raise the `KeyError` the source raises.
 */
module Documents {
  import opened Wrappers

  /** The exceptions the modelled code can raise; each aborts the run. */
  datatype Error =
    | KeyError(key: string)
    | IndexError(what: string)
    | ValueError(what: string)
    | UnknownRule(name: string)

  datatype Author = Author(name: string, initials: string)

  /** `hit['_source']`: the fields of a study, study-hit or region document that the rules read. */
  datatype Source = Source(
    genes: Option<seq<string>>,
    diseases: Option<seq<string>>,
    studyId: Option<string>,
    authors: Option<seq<Author>>,
    disease: Option<string>,
    status: Option<string>,
    diseaseLocus: Option<string>,
    diseaseLoci: Option<seq<string>>,
    regionId: Option<string>,
    regionName: Option<string>)

  /** One hit of a scan page: `hit['_id']` and `hit['_source']`. */
  datatype Hit = Hit(id: string, source: Source)

  /** A disease-locus document: its id and the ids of its study hits. */
  datatype LocusDoc = LocusDoc(id: string, hits: seq<string>)

  /** `d[k]` on a dictionary of strings. */
  function Lookup(m: map<string, string>, k: string): (r: Result<string, Error>)
    ensures r.Ok? <==> k in m
    ensures r.Ok? ==> r.value == m[k]
    ensures r.Err? ==> r.error == KeyError(k)
  {
    if k in m then Ok(m[k]) else Err(KeyError(k))
  }
}
