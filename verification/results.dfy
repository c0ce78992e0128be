/** The results page of completed elections (`Results`): the tally shown
    for one election, derived views of the server's result array, and the
    page state that picks an election and fetches its results. */
module Results {
  import opened Api

  /** One element of `GET /elections/{id}/results`. */
  datatype ResultRow = ResultRow(candidate: Candidate, voteCount: int)

  /** A row of the Detailed Results table. */
  datatype TableRow = TableRow(rank: int, name: string, votes: int, percentage: real)

  /** The `labels` and `datasets[0].data` arrays of a chart. */
  datatype ChartData = ChartData(labels: seq<string>, data: seq<int>)

  const ElectionsFailed := "Failed to load elections"
  const ResultsFailed := "Failed to load election results"

  // ---------------------------------------------------------------------------
  // Derived views of a result array

  /** `results.reduce((sum, r) => sum + r.voteCount, 0)`. */
  function TotalVotes(results: seq<ResultRow>): int
  {
    if results == [] then 0
    else TotalVotes(results[..|results| - 1]) + results[|results| - 1].voteCount
  }

  predicate NonNegativeCounts(results: seq<ResultRow>) {
    forall i :: 0 <= i < |results| ==> results[i].voteCount >= 0
  }

  /** With non-negative counts no row has more votes than the total. */
  lemma {:induction false} CountAtMostTotal(results: seq<ResultRow>, i: int)
    requires NonNegativeCounts(results)
    requires 0 <= i < |results|
    ensures 0 <= results[i].voteCount <= TotalVotes(results)
  {
    var last := |results| - 1;
    var init := results[..last];
    TotalNonNegative(init);
    if i < last {
      assert init[i] == results[i];
      CountAtMostTotal(init, i);
    }
  }

  lemma {:induction false} TotalNonNegative(results: seq<ResultRow>)
    requires NonNegativeCounts(results)
    ensures TotalVotes(results) >= 0
  {
    if results != [] {
      TotalNonNegative(results[..|results| - 1]);
    }
  }

  /** `"<firstName> <lastName>"`. */
  function CandidateName(c: Candidate): string {
    c.firstName + " " + c.lastName
  }

  /** A row's percentage, as the exact value that `toFixed(2)` rounds: zero
      unless the total is positive. */
  function Percentage(voteCount: int, total: int): (p: real)
    ensures total <= 0 ==> p == 0.0
    ensures 0 <= voteCount <= total ==> 0.0 <= p <= 100.0
    ensures 0 < total ==> p * (total as real) == (voteCount as real) * 100.0
  {
    if total > 0 then (voteCount as real / total as real) * 100.0 else 0.0
  }

  /** Percentages of the rows of `rows`, each taken against `total`, added up. */
  function PercentageSum(rows: seq<ResultRow>, total: int): real
  {
    if rows == [] then 0.0
    else PercentageSum(rows[..|rows| - 1], total) + Percentage(rows[|rows| - 1].voteCount, total)
  }

  /** Taken against one positive total, the percentages of a prefix add up
      to that prefix's share of the votes. */
  lemma {:induction false} PercentageSumShare(rows: seq<ResultRow>, total: int)
    requires total > 0
    ensures PercentageSum(rows, total) * (total as real) == (TotalVotes(rows) as real) * 100.0
  {
    if rows != [] {
      var init := rows[..|rows| - 1];
      var c := rows[|rows| - 1].voteCount;
      PercentageSumShare(init, total);
      var t := total as real;
      assert PercentageSum(rows, total) * t
          == PercentageSum(init, total) * t + Percentage(c, total) * t;
    }
  }

  /** Whenever some votes were cast, the percentage column of the Detailed
      Results table adds up to exactly 100 (before rounding). */
  lemma PercentagesAddUpTo100(results: seq<ResultRow>)
    requires TotalVotes(results) > 0
    ensures PercentageSum(results, TotalVotes(results)) == 100.0
    ensures ColumnSum(Table(results)) == 100.0
  {
    var total := TotalVotes(results);
    PercentageSumShare(results, total);
    CancelTotal(PercentageSum(results, total), total, TotalVotes(results));
    ColumnIsPercentageSum(results, |results|);
    assert Table(results)[..|results|] == Table(results) && results[..|results|] == results;
  }

  /** The percentage column of table rows, added up. */
  function ColumnSum(rows: seq<TableRow>): real
  {
    if rows == [] then 0.0 else ColumnSum(rows[..|rows| - 1]) + rows[|rows| - 1].percentage
  }

  /** The first `k` rows of the table carry the percentages of the first `k`
      results, each against the whole total. */
  lemma {:induction false} ColumnIsPercentageSum(results: seq<ResultRow>, k: nat)
    requires k <= |results|
    ensures ColumnSum(Table(results)[..k]) == PercentageSum(results[..k], TotalVotes(results))
  {
    if k > 0 {
      ColumnIsPercentageSum(results, k - 1);
      var rows := Table(results);
      assert rows[..k][..k - 1] == rows[..k - 1];
      assert results[..k][..k - 1] == results[..k - 1];
    }
  }

  /** A sum whose product with a positive total is a hundred times that
      total is a hundred. */
  lemma CancelTotal(sum: real, total: int, votes: int)
    requires total > 0 && votes == total
    requires sum * (total as real) == (votes as real) * 100.0
    ensures sum == 100.0
  {
    var t := total as real;
    if sum < 100.0 {
      ScaleStrict(sum, 100.0, t);
    } else if sum > 100.0 {
      ScaleStrict(100.0, sum, t);
    }
  }

  /** Multiplying by a positive factor keeps a strict order. */
  lemma ScaleStrict(a: real, b: real, t: real)
    requires a < b && t > 0.0
    ensures a * t < b * t
  {
    var d := b - a;
    assert d > 0.0;
    assert d * t > 0.0;
    assert b * t == a * t + d * t;
  }

  /** The Detailed Results table: one row per result, in server order, ranked
      by position, with each row's share of the total. */
  function Table(results: seq<ResultRow>): (rows: seq<TableRow>)
    ensures |rows| == |results|
    ensures forall i :: 0 <= i < |rows| ==>
      && rows[i].rank == i + 1
      && rows[i].name == CandidateName(results[i].candidate)
      && rows[i].votes == results[i].voteCount
      && rows[i].percentage == Percentage(results[i].voteCount, TotalVotes(results))
  {
    var total := TotalVotes(results);
    seq(|results|, i requires 0 <= i < |results| =>
      TableRow(i + 1, CandidateName(results[i].candidate), results[i].voteCount,
               Percentage(results[i].voteCount, total)))
  }

  /** The Winner field: the first result, whatever its count. */
  function Winner(results: seq<ResultRow>): Option<ResultRow>
  {
    if |results| > 0 then Some(results[0]) else None
  }

  /** `voteCount` does not increase along the array, as the server sends it. */
  predicate SortedByVotes(results: seq<ResultRow>) {
    forall i, j :: 0 <= i < j < |results| ==> results[i].voteCount >= results[j].voteCount
  }

  /** The winner is the table's rank-1 row; when the server's order is by
      votes, no row has more votes than the winner and a better rank never
      shows a smaller percentage. */
  lemma WinnerIsRankOne(results: seq<ResultRow>)
    requires |results| > 0
    ensures Winner(results) == Some(results[0])
    ensures Table(results)[0].rank == 1 && Table(results)[0].votes == Winner(results).value.voteCount
    ensures SortedByVotes(results) ==>
      forall i :: 0 <= i < |results| ==> results[i].voteCount <= Winner(results).value.voteCount
    ensures SortedByVotes(results) ==>
      forall i, j :: 0 <= i < j < |results| ==> Table(results)[i].percentage >= Table(results)[j].percentage
  {
    var rows := Table(results);
    var total := TotalVotes(results);
    if SortedByVotes(results) {
      forall i, j | 0 <= i < j < |results|
        ensures rows[i].percentage >= rows[j].percentage
      {
        PercentageMonotone(results[j].voteCount, results[i].voteCount, total);
      }
    }
  }

  lemma PercentageMonotone(a: int, b: int, total: int)
    requires a <= b
    ensures Percentage(a, total) <= Percentage(b, total)
  {
    if total > 0 {
      var t := total as real;
      assert a as real / t <= b as real / t;
    }
  }

  /** Both charts: one label and one value per result, by index. */
  function Chart(results: seq<ResultRow>): (chart: ChartData)
    ensures |chart.labels| == |results| && |chart.data| == |results|
    ensures forall i :: 0 <= i < |results| ==>
      chart.labels[i] == CandidateName(results[i].candidate) && chart.data[i] == results[i].voteCount
  {
    ChartData(seq(|results|, i requires 0 <= i < |results| => CandidateName(results[i].candidate)),
              seq(|results|, i requires 0 <= i < |results| => results[i].voteCount))
  }

  function Sum(xs: seq<int>): int {
    if xs == [] then 0 else Sum(xs[..|xs| - 1]) + xs[|xs| - 1]
  }

  /** The chart values add up to the Total Votes field, and the charts and
      the table agree row by row. */
  lemma {:induction false} ChartMatchesTable(results: seq<ResultRow>)
    ensures Sum(Chart(results).data) == TotalVotes(results)
    ensures forall i :: 0 <= i < |results| ==>
      Chart(results).labels[i] == Table(results)[i].name && Chart(results).data[i] == Table(results)[i].votes
  {
    if results != [] {
      var init := results[..|results| - 1];
      ChartMatchesTable(init);
      var data := Chart(results).data;
      assert data[..|data| - 1] == Chart(init).data;
    }
  }

  // ---------------------------------------------------------------------------
  // Choosing an election

  /** `list.find(e => e._id === id)`. */
  function Find(list: seq<Election>, id: string): (found: Option<Election>)
    ensures found.None? <==> forall e :: e in list ==> e.id != id
    ensures found.Some? ==>
      exists i :: 0 <= i < |list| && list[i] == found.value && found.value.id == id
        && forall j :: 0 <= j < i ==> list[j].id != id
  {
    if list == [] then None
    else if list[0].id == id then Some(list[0])
    else
      var rest := Find(list[1..], id);
      if rest.Some? then
        ghost var k :| 0 <= k < |list| - 1 && list[1..][k] == rest.value && rest.value.id == id
          && forall j :: 0 <= j < k ==> list[1..][j].id != id;
        assert list[k + 1] == rest.value;
        rest
      else
        rest
  }

  /** `initialElectionId` is truthy: present and not empty. */
  predicate Truthy(id: Option<string>) {
    id.Some? && id.value != ""
  }

  /** Which election `fetchElections` selects from the completed list: the
      one whose id is in the URL when there is one, the first otherwise, none
      for an empty list. */
  function InitialSelection(initialElectionId: Option<string>, list: seq<Election>): (sel: Option<Election>)
    ensures sel.Some? <==> list != []
    ensures sel.Some? ==> sel.value in list
    ensures Truthy(initialElectionId) && Find(list, initialElectionId.value).Some? ==>
      sel == Find(list, initialElectionId.value) && sel.value.id == initialElectionId.value
    ensures list != [] && (!Truthy(initialElectionId) || Find(list, initialElectionId.value).None?) ==>
      sel == Some(list[0])
  {
    if Truthy(initialElectionId) && |list| > 0 then
      var election := Find(list, initialElectionId.value);
      if election.Some? then election
      else if |list| > 0 then Some(list[0])
      else None
    else if |list| > 0 then Some(list[0])
    else None
  }

  // ---------------------------------------------------------------------------
  // The page state

  class ResultsPage {
    var elections: seq<Election>
    var selectedElection: Option<Election>
    var results: seq<ResultRow>
    var loading: bool
    var error: Option<string>
    /** Ids passed to `fetchResults`, oldest first. */
    var fetchedResults: seq<string>

    constructor ()
      ensures elections == [] && selectedElection == None && results == []
      ensures loading && error == None && fetchedResults == []
    {
      elections := [];
      selectedElection := None;
      results := [];
      loading := true;
      error := None;
      fetchedResults := [];
    }

    /** `fetchResults(electionId)` with the server's answer as `response`. */
    method FetchResults(electionId: string, response: Response<seq<ResultRow>>)
      modifies this`results, this`error, this`loading, this`fetchedResults
      ensures fetchedResults == old(fetchedResults) + [electionId]
      ensures !loading
      ensures response.Ok? ==> results == response.data && error == old(error)
      ensures response.Fail? ==> results == old(results) && error == Some(ResultsFailed)
    {
      loading := true;
      fetchedResults := fetchedResults + [electionId];
      if response.Ok? {
        results := response.data;
      } else {
        error := Some(ResultsFailed);
      }
      loading := false;
    }

    /** `fetchElections` on mount: loads the completed list, selects an
        election and fetches its results with `resultsResponse` as the answer. */
    method FetchElections(initialElectionId: Option<string>, response: Response<seq<Election>>,
                          resultsResponse: Response<seq<ResultRow>>)
      modifies this
      ensures !loading
      ensures response.Fail? ==>
        && elections == old(elections) && selectedElection == old(selectedElection)
        && results == old(results) && fetchedResults == old(fetchedResults)
        && error == Some(ElectionsFailed)
      ensures response.Ok? ==> elections == response.data
      ensures response.Ok? && response.data == [] ==>
        && selectedElection == old(selectedElection) && results == old(results)
        && fetchedResults == old(fetchedResults) && error == old(error)
      ensures response.Ok? && response.data != [] ==>
        && selectedElection == InitialSelection(initialElectionId, response.data)
        && selectedElection.Some? && selectedElection.value in elections
        && fetchedResults == old(fetchedResults) + [selectedElection.value.id]
        && (resultsResponse.Ok? ==> results == resultsResponse.data && error == old(error))
        && (resultsResponse.Fail? ==> results == old(results) && error == Some(ResultsFailed))
    {
      if response.Fail? {
        error := Some(ElectionsFailed);
        loading := false;
        return;
      }
      var list := response.data;
      elections := list;
      if Truthy(initialElectionId) && |list| > 0 {
        var election := Find(list, initialElectionId.value);
        if election.Some? {
          selectedElection := election;
          FetchResults(initialElectionId.value, resultsResponse);
        } else if |list| > 0 {
          selectedElection := Some(list[0]);
          FetchResults(list[0].id, resultsResponse);
        }
      } else if |list| > 0 {
        selectedElection := Some(list[0]);
        FetchResults(list[0].id, resultsResponse);
      } else {
        loading := false;
      }
    }

    /** `handleElectionChange`: selects the loaded election with the chosen
        id (none when no element has it) and fetches results for that id. */
    method HandleElectionChange(electionId: string, response: Response<seq<ResultRow>>)
      modifies this`selectedElection, this`results, this`error, this`loading, this`fetchedResults
      ensures selectedElection == Find(elections, electionId)
      ensures selectedElection.Some? ==> selectedElection.value in elections && selectedElection.value.id == electionId
      ensures fetchedResults == old(fetchedResults) + [electionId]
      ensures !loading
      ensures response.Ok? ==> results == response.data && error == old(error)
      ensures response.Fail? ==> results == old(results) && error == Some(ResultsFailed)
    {
      selectedElection := Find(elections, electionId);
      FetchResults(electionId, response);
    }
  }
}
