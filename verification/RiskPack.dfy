/** Merging the classification cases of a test run with the risk cases (testing/risk_pack.py). */
module RiskPack {
  import opened Wrappers
  import opened Routing

  predicate DistinctIds(cases: seq<TestCase>) {
    forall i, j :: 0 <= i < j < |cases| ==> cases[i].caseId != cases[j].caseId
  }

  /** All cases, unless two have one id; then the id that repeats first is reported. */
  method MergeTestCases(classification: seq<TestCase>, risk: seq<TestCase>) returns (r: Result<seq<TestCase>, string>)
    ensures r.Ok? <==> DistinctIds(classification + risk)
    ensures r.Ok? ==> r.value == classification + risk
    ensures r.Err? ==> exists i :: 0 <= i < |classification + risk| && r.error == (classification + risk)[i].caseId
                         && DistinctIds((classification + risk)[..i]) && !DistinctIds((classification + risk)[..i + 1])
  {
    var merged := classification + risk;
    var seen: set<string> := {};
    for i := 0 to |merged|
      invariant seen == set j | 0 <= j < i :: merged[j].caseId
      invariant DistinctIds(merged[..i])
    {
      if merged[i].caseId in seen {
        var j :| 0 <= j < i && merged[j].caseId == merged[i].caseId;
        assert merged[..i + 1][j].caseId == merged[..i + 1][i].caseId;
        return Err(merged[i].caseId);
      }
      seen := seen + {merged[i].caseId};
    }
    assert merged[..|merged|] == merged;
    return Ok(merged);
  }
}
