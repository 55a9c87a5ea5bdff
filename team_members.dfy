/** The hand-kept team roster (lib/strava/team-members.ts): a module-level
    array of Strava athlete ids that `addTeamMember` grows in place and
    `getTeamMemberIds` hands out by reference. */
module TeamMembers {
  /** The ids listed in `TEAM_MEMBER_IDS`. */
  const InitialIds: seq<int> :=
    [196048899, 109066463, 200721606, 141454027, 137374708, 200730680, 180165458, 141634408, 198267219]

  predicate Distinct(ids: seq<int>) {
    forall i, j :: 0 <= i < j < |ids| ==> ids[i] != ids[j]
  }

  /** The roster starts with nine different athletes. */
  lemma InitialIdsDistinct()
    ensures |InitialIds| == 9 && Distinct(InitialIds)
  {
  }

  /** `addTeamMember` on the contents: push the id unless it is there. */
  function WithMember(ids: seq<int>, athleteId: int): seq<int> {
    if athleteId in ids then ids else ids + [athleteId]
  }

  /** Adding keeps every id in place, makes the new one present, adds at most
      one entry, never creates a duplicate, and adding twice is adding once. */
  lemma WithMemberProperties(ids: seq<int>, athleteId: int)
    ensures athleteId in WithMember(ids, athleteId)
    ensures |WithMember(ids, athleteId)| == |ids| + (if athleteId in ids then 0 else 1)
    ensures WithMember(ids, athleteId)[..|ids|] == ids
    ensures Distinct(ids) ==> Distinct(WithMember(ids, athleteId))
    ensures WithMember(WithMember(ids, athleteId), athleteId) == WithMember(ids, athleteId)
    ensures forall x :: x in WithMember(ids, athleteId) <==> x in ids || x == athleteId
  {
  }

  /** The `TEAM_MEMBER_IDS` array object. */
  class MemberIdArray {
    var elements: seq<int>

    constructor (initial: seq<int>)
      ensures elements == initial
    {
      elements := initial;
    }
  }

  /** The module's state: the one array every caller shares. */
  class TeamRoster {
    const teamMemberIds: MemberIdArray

    constructor ()
      ensures fresh(teamMemberIds) && teamMemberIds.elements == InitialIds
    {
      teamMemberIds := new MemberIdArray(InitialIds);
    }

    /** `getTeamMemberIds`: the array itself, not a copy, so later additions
        show through the returned reference. */
    method GetTeamMemberIds() returns (ids: MemberIdArray)
      ensures ids == teamMemberIds
    {
      ids := teamMemberIds;
    }

    /** `addTeamMember`: append the id unless the array already holds it. */
    method AddTeamMember(athleteId: int)
      modifies teamMemberIds
      ensures teamMemberIds.elements == WithMember(old(teamMemberIds.elements), athleteId)
      ensures Distinct(old(teamMemberIds.elements)) ==> Distinct(teamMemberIds.elements)
    {
      if athleteId !in teamMemberIds.elements {
        teamMemberIds.elements := teamMemberIds.elements + [athleteId];
      }
      WithMemberProperties(old(teamMemberIds.elements), athleteId);
    }
  }
}
