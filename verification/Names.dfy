/** How the server reads the ids and the names that requests carry. */
module Names {
  import opened Prelude
  import opened Matcher
  import opened FrontEnds

  /** The id a registration is stored under, if the request is accepted. */
  function RegisterId(id: Text, cidLength: nat): Option<Text> {
    if |id| < cidLength then None
    else
      var truncated := id[..cidLength];
      if IsCIDBase32(truncated) then Some(truncated) else None
  }

  /** The id a poll or a deregistration looks up. */
  function PollId(id: Text, cidLength: nat): Option<Text> {
    if |id| < cidLength then None else Some(id[..cidLength])
  }

  /** The configured domain a name belongs to: the first that fits. */
  function MatchedDomain(domains: seq<Text>, qname: Text): Option<Text> {
    if domains == [] then None
    else if qname == domains[0] || HasSuffix(qname, "." + domains[0]) then Some(domains[0])
    else MatchedDomain(domains[1..], qname)
  }

  function ExtractSubdomain(qname: Text, domain: Text): Text {
    if qname == domain then ""
    else match CutSuffix(qname, "." + domain) case Some(front) => front case None => ""
  }

  /** How the server keeps its domains. */
  ghost predicate LongestFirst(domains: seq<Text>) {
    forall i, j :: 0 <= i < j < |domains| ==> |domains[i]| >= |domains[j]|
  }
}
