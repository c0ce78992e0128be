/** The multi-position ballot of one election (`VotingPage`): the
    eligibility check and candidate grouping done on load, and the three
    handlers that walk the voter through the positions. */
module Voting {
  import opened Api

  /** Body of `GET /votes/check/{electionId}`; a list the server leaves out is `None`. */
  datatype VoteCheck = VoteCheck(
    hasVoted: bool,
    votedPositions: Option<seq<string>>,
    availablePositions: Option<seq<string>>,
    remainingPositions: Option<seq<string>>)

  datatype VoteStatus = VoteStatus(hasVoted: bool, allPositionsVoted: bool)

  /** Body of one `POST /votes`. */
  datatype VoteRequest = VoteRequest(electionId: string, candidateId: string)

  /** Message shown when a load request fails without a server message. */
  const LoadFailed := "Failed to load election data"

  /** `list || []`. */
  function OrEmpty(list: Option<seq<string>>): (r: seq<string>)
    ensures list.Some? ==> r == list.value
    ensures list.None? ==> r == []
  {
    if list.Some? then list.value else []
  }

  // ---------------------------------------------------------------------------
  // Grouping candidates by position

  /** The candidates of `cs` that run for `position`, in input order. */
  function AtPosition(cs: seq<Candidate>, position: string): seq<Candidate>
  {
    if cs == [] then []
    else AtPosition(cs[..|cs| - 1], position)
         + (if cs[|cs| - 1].position == position then [cs[|cs| - 1]] else [])
  }

  /** A candidate is in the list for a position exactly when it is in the
      input and runs for that position. */
  lemma {:induction false} AtPositionMembers(cs: seq<Candidate>, position: string)
    ensures forall c :: c in AtPosition(cs, position) <==> c in cs && c.position == position
  {
    if cs != [] {
      var init := cs[..|cs| - 1];
      AtPositionMembers(init, position);
      assert cs == init + [cs[|cs| - 1]];
    }
  }

  /** `groups` is the result of grouping `cs` by position: one key per
      position that some candidate runs for, holding those candidates in
      input order. */
  ghost predicate GroupedBy(groups: map<string, seq<Candidate>>, cs: seq<Candidate>) {
    && (forall p :: p in groups <==> AtPosition(cs, p) != [])
    && (forall p :: p in groups ==> groups[p] == AtPosition(cs, p))
  }

  /** One more candidate joins the end of its own position's list, which is
      created when missing; every other list stays as it was. */
  lemma GroupStep(groups: map<string, seq<Candidate>>, done: seq<Candidate>, c: Candidate,
                  next: map<string, seq<Candidate>>)
    requires GroupedBy(groups, done)
    requires c.position in next
    requires next[c.position] == (if c.position in groups then groups[c.position] else []) + [c]
    requires forall p :: p != c.position ==> (p in next <==> p in groups)
    requires forall p :: p != c.position && p in groups ==> next[p] == groups[p]
    ensures GroupedBy(next, done + [c])
  {
    var all := done + [c];
    assert all[..|all| - 1] == done;
    assert forall p :: AtPosition(all, p) == AtPosition(done, p) + (if c.position == p then [c] else []);
  }

  /** The grouping the `forEach`/`push` loop builds, stated one candidate at
      a time: the last candidate joins the end of its position's list,
      which is created when missing. */
  function Grouped(cs: seq<Candidate>): map<string, seq<Candidate>>
  {
    if cs == [] then map[]
    else
      var before := Grouped(cs[..|cs| - 1]);
      var c := cs[|cs| - 1];
      before[c.position := (if c.position in before then before[c.position] else []) + [c]]
  }

  /** The map built that way is a grouping by position. */
  lemma {:induction false} GroupedIsGrouping(cs: seq<Candidate>)
    ensures GroupedBy(Grouped(cs), cs)
  {
    if cs != [] {
      var init, c := cs[..|cs| - 1], cs[|cs| - 1];
      GroupedIsGrouping(init);
      GroupStep(Grouped(init), init, c, Grouped(cs));
      assert init + [c] == cs;
    }
  }

  /** The `forEach`/`push` loop that builds `candidatesByPos` from the body
      of `GET /candidates/election/{id}`; a body that is not an array
      (`None`) gives the empty map. */
  method GroupByPosition(data: Option<seq<Candidate>>) returns (groups: map<string, seq<Candidate>>)
    ensures data.None? ==> groups == map[]
    ensures data.Some? ==> groups == Grouped(data.value) && GroupedBy(groups, data.value)
  {
    groups := map[];
    if data.Some? {
      var cs := data.value;
      var i := 0;
      while i < |cs|
        invariant 0 <= i <= |cs|
        invariant groups == Grouped(cs[..i])
      {
        var c := cs[i];
        ghost var before := groups;
        if c.position !in groups {
          groups := groups[c.position := []];
        }
        groups := groups[c.position := groups[c.position] + [c]];
        assert cs[..i + 1][..i] == cs[..i];
        assert groups == before[c.position := (if c.position in before then before[c.position] else []) + [c]];
        i := i + 1;
      }
      assert cs[..|cs|] == cs;
      GroupedIsGrouping(cs);
    }
  }

  /** In a grouping, every candidate is in its own position's list and every
      list holds only candidates of the input with that position. */
  lemma GroupedMembers(groups: map<string, seq<Candidate>>, cs: seq<Candidate>)
    requires GroupedBy(groups, cs)
    ensures forall c :: c in cs ==> c.position in groups && c in groups[c.position]
    ensures forall p, c :: p in groups && c in groups[p] ==> c in cs && c.position == p
  {
    forall p | p in groups
      ensures forall c :: c in groups[p] <==> c in cs && c.position == p
    {
      AtPositionMembers(cs, p);
    }
    forall c | c in cs
      ensures c.position in groups && c in groups[c.position]
    {
      AtPositionMembers(cs, c.position);
    }
  }

  // ---------------------------------------------------------------------------
  // Remaining positions

  /** The available positions not yet voted, in their original order. */
  function Remaining(available: seq<string>, voted: seq<string>): seq<string>
  {
    if available == [] then []
    else (if available[0] in voted then [] else [available[0]]) + Remaining(available[1..], voted)
  }

  /** A position remains exactly when it is available and not voted. */
  lemma {:induction false} RemainingMembers(available: seq<string>, voted: seq<string>)
    ensures forall p :: p in Remaining(available, voted) <==> p in available && p !in voted
  {
    if available != [] {
      RemainingMembers(available[1..], voted);
      assert available == [available[0]] + available[1..];
    }
  }

  /** Voting for `p` removes exactly `p` from the remaining list, in place:
      the new remaining list is the old one filtered once more. */
  lemma {:induction false} RemainingAfterVote(available: seq<string>, voted: seq<string>, p: string)
    ensures Remaining(available, voted + [p]) == Remaining(Remaining(available, voted), [p])
  {
    if available != [] {
      RemainingAfterVote(available[1..], voted, p);
      var x := available[0];
      var tail := Remaining(available[1..], voted);
      assert (x in voted + [p]) == (x in voted || x == p);
      assert (x in [p]) == (x == p);
      var r := Remaining(available, voted);
      if x !in voted {
        assert r == [x] + tail;
        assert r != [] && r[0] == x && r[1..] == tail;
        assert Remaining(r, [p]) == (if x == p then [] else [x]) + Remaining(tail, [p]);
      } else {
        assert r == tail;
      }
    }
  }

  /** Voting for a position that still remains shortens the remaining list,
      so a voter who always votes the offered position finishes. */
  lemma {:induction false} RemainingShrinks(available: seq<string>, voted: seq<string>, p: string)
    requires p in Remaining(available, voted)
    ensures |Remaining(available, voted + [p])| < |Remaining(available, voted)|
  {
    RemainingAfterVote(available, voted, p);
    FilterOneShrinks(Remaining(available, voted), p);
  }

  lemma {:induction false} FilterOneShrinks(s: seq<string>, p: string)
    requires p in s
    ensures |Remaining(s, [p])| < |s|
  {
    if s[0] != p {
      FilterOneShrinks(s[1..], p);
    } else {
      LengthBound(s[1..], [p]);
    }
  }

  lemma {:induction false} LengthBound(s: seq<string>, voted: seq<string>)
    ensures |Remaining(s, voted)| <= |s|
  {
    if s != [] {
      LengthBound(s[1..], voted);
    }
  }

  // ---------------------------------------------------------------------------
  // The page state

  class VotingPage {
    const electionId: string
    var election: Option<Election>
    var candidatesByPosition: map<string, seq<Candidate>>
    /** Tentative choice per position: position to candidate `_id`. */
    var selectedCandidates: map<string, string>
    var votedPositions: seq<string>
    var availablePositions: seq<string>
    var currentPosition: string
    var loading: bool
    var submitting: bool
    var error: Option<string>
    var voteStatus: VoteStatus
    /** Every `POST /votes` this page has issued, oldest first. */
    var sentVotes: seq<VoteRequest>

    /** The initial `useState` values. */
    constructor (electionId: string)
      ensures this.electionId == electionId
      ensures election == None && candidatesByPosition == map[] && selectedCandidates == map[]
      ensures votedPositions == [] && availablePositions == [] && currentPosition == ""
      ensures loading && !submitting && error == None
      ensures voteStatus == VoteStatus(false, false) && sentVotes == []
    {
      this.electionId := electionId;
      election := None;
      candidatesByPosition := map[];
      selectedCandidates := map[];
      votedPositions := [];
      availablePositions := [];
      currentPosition := "";
      loading := true;
      submitting := false;
      error := None;
      voteStatus := VoteStatus(false, false);
      sentVotes := [];
    }

    /** `!!selectedCandidates[currentPosition]`: a non-empty candidate id is
        chosen for the displayed position. */
    predicate HasSelection()
      reads this
    {
      currentPosition in selectedCandidates && selectedCandidates[currentPosition] != ""
    }

    /** The Cast Vote button's `disabled` attribute. */
    predicate CastVoteDisabled()
      reads this
    {
      !HasSelection() || submitting
    }

    /** The Cast Vote button is on screen: the page has finished loading,
        shows no error message, and some position is still open (the
        completion notice replaces the ballot otherwise). */
    predicate CastVoteShown()
      reads this
    {
      !loading && !(error.Some? && error.value != "") && !voteStatus.allPositionsVoted
    }

    /** `fetchElectionData`: the eligibility check, then the election, then
        the candidates. A failing request stops the sequence and records its
        message; what earlier requests set stays set. */
    method Load(check: Response<VoteCheck>, electionRes: Response<Election>,
                candidatesRes: Response<Option<seq<Candidate>>>)
      modifies this
      ensures !loading
      ensures selectedCandidates == old(selectedCandidates) && submitting == old(submitting)
      ensures sentVotes == old(sentVotes)
      ensures check.Fail? ==>
        && votedPositions == old(votedPositions) && availablePositions == old(availablePositions)
        && currentPosition == old(currentPosition) && voteStatus == old(voteStatus)
        && election == old(election) && candidatesByPosition == old(candidatesByPosition)
        && error == Some(MessageOr(check, LoadFailed))
      ensures check.Ok? ==>
        var remaining := check.data.remainingPositions;
        && votedPositions == OrEmpty(check.data.votedPositions)
        && availablePositions == OrEmpty(check.data.availablePositions)
        && currentPosition == (if remaining.Some? && remaining.value != [] then remaining.value[0]
                               else old(currentPosition))
        && voteStatus == VoteStatus(check.data.hasVoted, remaining.Some? && remaining.value == [])
      ensures check.Ok? && electionRes.Fail? ==>
        && election == old(election) && candidatesByPosition == old(candidatesByPosition)
        && error == Some(MessageOr(electionRes, LoadFailed))
      ensures check.Ok? && electionRes.Ok? && candidatesRes.Fail? ==>
        && election == old(election) && candidatesByPosition == old(candidatesByPosition)
        && error == Some(MessageOr(candidatesRes, LoadFailed))
      ensures check.Ok? && electionRes.Ok? && candidatesRes.Ok? ==>
        && election == Some(electionRes.data) && error == old(error)
        && (candidatesRes.data.None? ==> candidatesByPosition == map[])
        && (candidatesRes.data.Some? ==> GroupedBy(candidatesByPosition, candidatesRes.data.value))
    {
      loading := true;
      if check.Fail? {
        error := Some(MessageOr(check, LoadFailed));
      } else {
        ApplyVoteCheck(check.data);
        ApplyDetails(electionRes, candidatesRes);
      }
      loading := false;
    }

    /** The first stage of `fetchElectionData`: the eligibility answer sets
        the position lists, the displayed position and the status. */
    method ApplyVoteCheck(data: VoteCheck)
      modifies this`votedPositions, this`availablePositions, this`currentPosition, this`voteStatus
      ensures votedPositions == OrEmpty(data.votedPositions)
      ensures availablePositions == OrEmpty(data.availablePositions)
      ensures currentPosition ==
        (if data.remainingPositions.Some? && data.remainingPositions.value != [] then data.remainingPositions.value[0]
         else old(currentPosition))
      ensures voteStatus == VoteStatus(data.hasVoted, data.remainingPositions.Some? && data.remainingPositions.value == [])
    {
      votedPositions := OrEmpty(data.votedPositions);
      availablePositions := OrEmpty(data.availablePositions);
      if data.remainingPositions.Some? && |data.remainingPositions.value| > 0 {
        currentPosition := data.remainingPositions.value[0];
      }
      voteStatus := VoteStatus(data.hasVoted,
        if data.remainingPositions.Some? then |data.remainingPositions.value| == 0 else false);
    }

    /** The later stages: the election, then the candidates grouped by
        position; a failing request records its message and sets neither. */
    method ApplyDetails(electionRes: Response<Election>, candidatesRes: Response<Option<seq<Candidate>>>)
      modifies this`election, this`candidatesByPosition, this`error
      ensures electionRes.Fail? ==>
        && election == old(election) && candidatesByPosition == old(candidatesByPosition)
        && error == Some(MessageOr(electionRes, LoadFailed))
      ensures electionRes.Ok? && candidatesRes.Fail? ==>
        && election == old(election) && candidatesByPosition == old(candidatesByPosition)
        && error == Some(MessageOr(candidatesRes, LoadFailed))
      ensures electionRes.Ok? && candidatesRes.Ok? ==>
        && election == Some(electionRes.data) && error == old(error)
        && (candidatesRes.data.None? ==> candidatesByPosition == map[])
        && (candidatesRes.data.Some? ==> GroupedBy(candidatesByPosition, candidatesRes.data.value))
    {
      if electionRes.Fail? {
        error := Some(MessageOr(electionRes, LoadFailed));
      } else if candidatesRes.Fail? {
        error := Some(MessageOr(candidatesRes, LoadFailed));
      } else {
        election := Some(electionRes.data);
        candidatesByPosition := GroupByPosition(candidatesRes.data);
      }
    }

    /** Clicking a candidate card: records it as the choice for the
        displayed position. Nothing else changes; no request is sent. */
    method SelectCandidate(candidateId: string)
      modifies this`selectedCandidates
      ensures selectedCandidates == old(selectedCandidates)[currentPosition := candidateId]
      ensures forall p :: p != currentPosition ==>
        (p in selectedCandidates <==> p in old(selectedCandidates))
        && (p in selectedCandidates ==> selectedCandidates[p] == old(selectedCandidates)[p])
    {
      selectedCandidates := selectedCandidates[currentPosition := candidateId];
    }

    /** `handlePositionChange`: shows the given position, voted or not. */
    method SwitchPosition(position: string)
      modifies this`currentPosition
      ensures currentPosition == position
    {
      currentPosition := position;
    }

    /** `handleVote`, with the server's answer to `POST /votes` as `outcome`.
        Without a choice for the displayed position it does nothing. It does
        not refuse a position that is already voted. */
    method HandleVote(outcome: Response<()>)
      modifies this`votedPositions, this`currentPosition, this`voteStatus, this`submitting, this`sentVotes
      ensures !old(HasSelection()) ==>
        && votedPositions == old(votedPositions) && currentPosition == old(currentPosition)
        && voteStatus == old(voteStatus) && submitting == old(submitting) && sentVotes == old(sentVotes)
      ensures old(HasSelection()) ==>
        && !submitting
        && sentVotes == old(sentVotes) + [VoteRequest(electionId, old(selectedCandidates[currentPosition]))]
      ensures outcome.Fail? ==>
        votedPositions == old(votedPositions) && currentPosition == old(currentPosition) && voteStatus == old(voteStatus)
      ensures old(HasSelection()) && outcome.Ok? ==>
        var remaining := Remaining(availablePositions, votedPositions);
        && votedPositions == old(votedPositions) + [old(currentPosition)]
        && (remaining == [] ==> voteStatus == VoteStatus(true, true) && currentPosition == old(currentPosition))
        && (remaining != [] ==>
              && voteStatus == old(voteStatus) && currentPosition == remaining[0]
              && currentPosition in availablePositions && currentPosition !in votedPositions)
    {
      if !HasSelection() {
        return;
      }
      submitting := true;
      sentVotes := sentVotes + [VoteRequest(electionId, selectedCandidates[currentPosition])];
      if outcome.Ok? {
        var updatedVotedPositions := votedPositions + [currentPosition];
        votedPositions := updatedVotedPositions;
        var updatedRemainingPositions := Remaining(availablePositions, updatedVotedPositions);
        if |updatedRemainingPositions| == 0 {
          voteStatus := VoteStatus(true, true);
        } else {
          RemainingMembers(availablePositions, updatedVotedPositions);
          currentPosition := updatedRemainingPositions[0];
        }
      }
      submitting := false;
    }

    /** A click on Cast Vote. A button that is not on screen cannot be
        clicked and a disabled one ignores the click: nothing changes. Any
        other click runs `handleVote`, with its full effect. */
    method PressCastVote(outcome: Response<()>)
      modifies this`votedPositions, this`currentPosition, this`voteStatus, this`submitting, this`sentVotes
      ensures !old(CastVoteShown()) || old(CastVoteDisabled()) ==>
        && votedPositions == old(votedPositions) && currentPosition == old(currentPosition)
        && voteStatus == old(voteStatus) && submitting == old(submitting) && sentVotes == old(sentVotes)
      ensures old(CastVoteShown()) && !old(CastVoteDisabled()) ==>
        && !submitting
        && sentVotes == old(sentVotes) + [VoteRequest(electionId, old(selectedCandidates[currentPosition]))]
        && (outcome.Fail? ==>
              votedPositions == old(votedPositions) && currentPosition == old(currentPosition) && voteStatus == old(voteStatus))
        && (outcome.Ok? ==>
              var remaining := Remaining(availablePositions, votedPositions);
              && votedPositions == old(votedPositions) + [old(currentPosition)]
              && (remaining == [] ==> voteStatus == VoteStatus(true, true) && currentPosition == old(currentPosition))
              && (remaining != [] ==>
                    && voteStatus == old(voteStatus) && currentPosition == remaining[0]
                    && currentPosition in availablePositions && currentPosition !in votedPositions))
    {
      if CastVoteShown() && !CastVoteDisabled() {
        HandleVote(outcome);
      }
    }
  }

  // ---------------------------------------------------------------------------
  // Ballot runs

  /** A page for election `E1` loaded with every position of `positions`
      still open and none voted: the first position is shown. */
  method OpenBallot(positions: seq<string>) returns (page: VotingPage)
    requires positions != []
    ensures fresh(page) && page.electionId == "E1"
    ensures page.availablePositions == positions && page.votedPositions == [] && page.currentPosition == positions[0]
    ensures page.selectedCandidates == map[] && page.sentVotes == [] && !page.submitting
    ensures !page.loading && page.error == None && page.voteStatus == VoteStatus(false, false)
  {
    page := new VotingPage("E1");
    page.Load(Ok(VoteCheck(false, Some([]), Some(positions), Some(positions))),
              Ok(Election("E1", "Students' Union")), Ok(Some([])));
  }

  /** Two positions, both still open: the voter votes President, is moved to
      Treasurer, votes it, and the ballot is complete. */
  method TwoPositionBallot() returns (voted: seq<string>, status: VoteStatus, requests: seq<VoteRequest>)
    ensures voted == ["President", "Treasurer"]
    ensures status == VoteStatus(true, true)
    ensures requests == [VoteRequest("E1", "C1"), VoteRequest("E1", "C2")]
  {
    var positions := ["President", "Treasurer"];
    var page := OpenBallot(positions);
    page.SelectCandidate("C1");
    assert page.CastVoteShown() && !page.CastVoteDisabled();
    page.PressCastVote(Ok(()));
    assert Remaining(positions, ["President"]) == ["Treasurer"];
    assert page.currentPosition == "Treasurer" && page.votedPositions == ["President"];
    page.SelectCandidate("C2");
    assert page.CastVoteShown() && !page.CastVoteDisabled();
    page.PressCastVote(Ok(()));
    assert Remaining(positions, ["President", "Treasurer"]) == [];
    voted, status, requests := page.votedPositions, page.voteStatus, page.sentVotes;
  }

  /** Once every position is voted the ballot gives way to the completion
      notice: a further press sends nothing. After a failed load only the
      error is shown: a press sends nothing either. */
  method NoVoteWithoutBallot() returns (afterCompletion: seq<VoteRequest>, afterError: seq<VoteRequest>)
    ensures afterCompletion == [VoteRequest("E1", "C1")]
    ensures afterError == []
  {
    var page := OpenBallot(["President"]);
    page.SelectCandidate("C1");
    assert page.CastVoteShown() && !page.CastVoteDisabled();
    page.PressCastVote(Ok(()));
    assert Remaining(["President"], ["President"]) == [];
    assert page.voteStatus.allPositionsVoted && page.HasSelection();
    page.PressCastVote(Ok(()));
    afterCompletion := page.sentVotes;

    var failed := new VotingPage("E1");
    failed.Load(Fail(None), Ok(Election("E1", "Students' Union")), Ok(Some([])));
    failed.SelectCandidate("C1");
    assert failed.HasSelection() && !failed.CastVoteShown();
    failed.PressCastVote(Ok(()));
    afterError := failed.sentVotes;
  }

  /** Going back to a voted position keeps its earlier choice selected, so
      Cast Vote is shown and enabled and a second vote for it is sent; on
      success the position is listed twice. */
  method RevoteVotedPosition() returns (voted: seq<string>, requests: seq<VoteRequest>, current: string)
    ensures voted == ["President", "President"]
    ensures requests == [VoteRequest("E1", "C1"), VoteRequest("E1", "C1")]
    ensures current == "Treasurer"
  {
    var positions := ["President", "Treasurer"];
    var page := OpenBallot(positions);
    page.SelectCandidate("C1");
    assert page.CastVoteShown() && !page.CastVoteDisabled();
    page.PressCastVote(Ok(()));
    assert Remaining(positions, ["President"]) == ["Treasurer"];
    assert page.votedPositions == ["President"];
    page.SwitchPosition("President");
    assert page.CastVoteShown() && !page.CastVoteDisabled();
    page.PressCastVote(Ok(()));
    assert Remaining(positions, ["President", "President"]) == ["Treasurer"];
    voted, requests, current := page.votedPositions, page.sentVotes, page.currentPosition;
  }
}
