/** The two endpoints that return raw passages of the vector store with
    their text cut short: `/vectorstore/query` and `/visa-requirements`. */
module Previews {
  import opened Results
  import opened PyStrings
  import opened Documents

  /** The preview `/vectorstore/query` shows of a passage: the whole text up to
      500 characters, otherwise its first 500 characters and an ellipsis. */
  function Preview(content: string): (p: string)
    ensures |p| <= 503
    ensures |content| <= 500 ==> p == content
    ensures |content| > 500 ==> |p| == 503 && p[..500] == content[..500] && p[500..] == "..."
  {
    if |content| > 500 then content[..500] + "..." else content
  }

  /** One entry of the `/vectorstore/query` results. */
  datatype QueryHit = QueryHit(rank: nat, content: string, metadata: map<string, string>, fullLength: nat)

  /** The body of a `/vectorstore/query` response. */
  datatype QueryResponse =
    | MissingQuery(error: string)
    | QueryResults(query: string, k: int, resultsCount: nat, results: seq<QueryHit>, timestamp: string)
    | QueryFailed(error: string, query: string)

  /** `/vectorstore/query` over the store's `search`, with the clock reading
      `now`. An empty query is refused before any search; a failing search is
      reported in the body; otherwise every passage becomes a ranked preview. */
  method QueryVectorstore(query: string, k: int, search: Search, now: string) returns (resp: QueryResponse)
    ensures query == "" ==> resp == MissingQuery("Query parameter is required")
    ensures query != "" && search(query, k).Err? ==> resp == QueryFailed(search(query, k).error, query)
    ensures query != "" && search(query, k).Ok? ==>
      var docs := search(query, k).value;
      && resp.QueryResults?
      && resp.query == query && resp.k == k && resp.timestamp == now
      && resp.resultsCount == |resp.results| == |docs|
      && forall i :: 0 <= i < |docs| ==>
           resp.results[i] == QueryHit(i + 1, Preview(docs[i].pageContent), docs[i].metadata, |docs[i].pageContent|)
  {
    if query == "" {
      return MissingQuery("Query parameter is required");
    }
    match search(query, k)
    case Err(e) =>
      resp := QueryFailed(e, query);
    case Ok(docs) =>
      var results: seq<QueryHit> := [];
      for i := 0 to |docs|
        invariant |results| == i
        invariant forall j :: 0 <= j < i ==>
          results[j] == QueryHit(j + 1, Preview(docs[j].pageContent), docs[j].metadata, |docs[j].pageContent|)
      {
        var doc := docs[i];
        results := results + [QueryHit(i + 1, Preview(doc.pageContent), doc.metadata, |doc.pageContent|)];
      }
      resp := QueryResults(query, k, |results|, results, now);
  }

  /** Python's `s[:n]` for `n >= 0`. */
  function Take(s: string, n: nat): (t: string)
    ensures |t| <= n && |t| <= |s|
    ensures t == s[..|t|]
    ensures |s| <= n ==> t == s
    ensures |s| > n ==> |t| == n && t == s[..n]
  {
    if |s| <= n then s else s[..n]
  }

  /** One entry of the `/visa-requirements` list. */
  datatype Requirement = Requirement(content: string, metadata: map<string, string>)

  /** The body of a `/visa-requirements` response. */
  datatype RequirementsResponse =
    | RequirementsNotFound(message: string, destination: string, visaType: string)
    | RequirementsFound(destination: string, visaType: string, requirements: seq<Requirement>, totalDocuments: nat)
    | RequirementsFailed(error: string, destination: string, visaType: string)
  {
    /** The `status` field. */
    function Status(): string {
      match this
      case RequirementsNotFound(_, _, _) => "not_found"
      case RequirementsFound(_, _, _, _) => "success"
      case RequirementsFailed(_, _, _) => "error"
    }
  }

  /** The question `/visa-requirements` searches for: it names the visa type
      and the destination and ends with a question mark. */
  function RequirementsQuery(destination: string, visaType: string): (q: string)
    ensures Contains(q, visaType) && Contains(q, destination)
    ensures EndsWith(q, "?")
  {
    var p0 := "What are the requirements for a ";
    var p1 := p0 + visaType + " visa to ";
    var q := p1 + destination + "?";
    assert q == p0 + visaType + q[|p0| + |visaType|..];
    ContainsMiddle(p0, visaType, q[|p0| + |visaType|..]);
    ContainsMiddle(p1, destination, "?");
    q
  }

  /** `/visa-requirements/{destination}/{visa_type}`: the three best passages,
      each cut to its first 800 characters without an ellipsis. */
  method GetVisaRequirements(destination: string, visaType: string, search: Search)
    returns (resp: RequirementsResponse)
    ensures var found := search(RequirementsQuery(destination, visaType), 3);
      && (found.Err? ==> resp == RequirementsFailed(found.error, destination, visaType))
      && (found == Ok([]) ==>
            resp == RequirementsNotFound("No information found for " + visaType + " visa to " + destination,
                                         destination, visaType))
      && (found.Ok? && found.value != [] ==>
            && resp.RequirementsFound?
            && resp.destination == destination && resp.visaType == visaType
            && resp.totalDocuments == |resp.requirements| == |found.value|
            && forall i :: 0 <= i < |found.value| ==>
                 resp.requirements[i] == Requirement(Take(found.value[i].pageContent, 800), found.value[i].metadata))
  {
    var query := RequirementsQuery(destination, visaType);
    match search(query, 3)
    case Err(e) =>
      resp := RequirementsFailed(e, destination, visaType);
    case Ok(docs) =>
      if docs == [] {
        return RequirementsNotFound("No information found for " + visaType + " visa to " + destination,
                                    destination, visaType);
      }
      var requirements: seq<Requirement> := [];
      for i := 0 to |docs|
        invariant |requirements| == i
        invariant forall j :: 0 <= j < i ==>
          requirements[j] == Requirement(Take(docs[j].pageContent, 800), docs[j].metadata)
      {
        requirements := requirements + [Requirement(Take(docs[i].pageContent, 800), docs[i].metadata)];
      }
      resp := RequirementsFound(destination, visaType, requirements, |docs|);
  }
}
