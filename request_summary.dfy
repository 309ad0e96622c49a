/** The list-view summary of a captured request. */
module RequestSummaries {
  import opened Text
  import opened Requests

  /** Longest body excerpt a summary carries. */
  const ExcerptLength: nat := 200

  datatype RequestSummary = RequestSummary(
    id: string,
    timestamp: int,
    httpMethod: string,
    path: string,
    queryString: string,
    bodyExcerpt: Utf16)

  /** Copies the identifying fields and keeps at most the first 200 UTF-16 units of the body. */
  function FromRequestRecord(record: RequestRecord): (s: RequestSummary)
    ensures s.id == record.id && s.timestamp == record.timestamp
    ensures s.httpMethod == record.httpMethod && s.path == record.path
    ensures s.queryString == record.queryString
    ensures |record.body| <= ExcerptLength ==> s.bodyExcerpt == record.body
    ensures |record.body| > ExcerptLength ==> s.bodyExcerpt == record.body[..ExcerptLength]
  {
    RequestSummary(record.id, record.timestamp, record.httpMethod, record.path,
                   record.queryString, Truncate(record.body, ExcerptLength))
  }

  /** The excerpt is always a prefix of the body and never longer than 200 units. */
  lemma ExcerptIsBoundedPrefix(record: RequestRecord)
    ensures |FromRequestRecord(record).bodyExcerpt| <= ExcerptLength
    ensures record.body[..|FromRequestRecord(record).bodyExcerpt|] == FromRequestRecord(record).bodyExcerpt
  {
  }
}
