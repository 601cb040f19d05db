/** The client-side cache of the signed-in user's saved teams (the `useTeams` hook).
    It owns `teams`, `isLoading` and `error`; each operation returns at once when no
    user is signed in, otherwise issues one request and updates the cache from the
    response. Responses are inputs (`Ok(data)` or `Fail`, standing for a non-2xx
    status or any error while fetching or parsing), and whether a user is signed in
    is the parameter `signedIn`. */
module UseTeams {
  import opened Lists
  import opened Roster

  /** A saved team as the server returns it. */
  datatype Team = Team(id: string, name: string, pokemon: seq<Pokemon>)

  function TeamId(t: Team): (r: string) { t.id }

  /** The outcome of one request to the team API. */
  datatype Response<T> = Ok(data: T) | Fail

  /** The requests the hook sends to the team API. */
  datatype Request =
    | ListTeams
    | PostTeam(name: string, pokemon: seq<Pokemon>)
    | PutTeam(teamId: string, name: string, pokemon: seq<Pokemon>)
    | DeleteTeamById(teamId: string)

  const LoadFailed := "Failed to load teams"
  const CreateFailed := "Failed to create team"
  const UpdateFailed := "Failed to update team"
  const DeleteFailed := "Failed to delete team"

  class TeamsHook {
    var teams: seq<Team>
    var isLoading: bool
    var error: string
    /** Every request sent so far, oldest first. */
    ghost var sent: seq<Request>

    constructor ()
      ensures teams == [] && !isLoading && error == "" && sent == []
    {
      teams, isLoading, error := [], false, "";
      sent := [];
    }

    /** Replaces the cache wholesale with the server's list; `isLoading` is false
        afterwards whatever the outcome. */
    method FetchTeams(signedIn: bool, response: Response<seq<Team>>)
      modifies this
      ensures !signedIn ==> unchanged(this)
      ensures signedIn ==> sent == old(sent) + [ListTeams] && !isLoading
      ensures signedIn && response.Ok? ==> teams == response.data && error == old(error)
      ensures signedIn && response.Fail? ==> teams == old(teams) && error == LoadFailed
    {
      if !signedIn { return; }
      isLoading := true;
      sent := sent + [ListTeams];
      match response {
        case Ok(data) => teams := data;
        case Fail => error := LoadFailed;
      }
      isLoading := false;
    }

    /** Appends the created team; a failure is recorded in `error` and the method
        returns normally with no team. */
    method CreateTeam(signedIn: bool, name: string, pokemon: seq<Pokemon>, response: Response<Team>)
      returns (created: Option<Team>)
      modifies this
      ensures isLoading == old(isLoading)
      ensures !signedIn ==> unchanged(this) && created == None
      ensures signedIn ==> sent == old(sent) + [PostTeam(name, pokemon)]
      ensures signedIn && response.Ok? ==>
                teams == old(teams) + [response.data] && error == old(error) &&
                created == Some(response.data)
      ensures signedIn && response.Fail? ==>
                teams == old(teams) && error == CreateFailed && created == None
    {
      created := None;
      if !signedIn { return; }
      sent := sent + [PostTeam(name, pokemon)];
      match response {
        case Ok(newTeam) =>
          teams := teams + [newTeam];
          created := Some(newTeam);
        case Fail =>
          error := CreateFailed;
      }
    }

    /** Every cached entry with id `teamId` becomes the returned team; a failure is
        recorded in `error` and the method returns normally with no team. */
    method UpdateTeam(signedIn: bool, teamId: string, name: string, pokemon: seq<Pokemon>,
                      response: Response<Team>)
      returns (updated: Option<Team>)
      modifies this
      ensures isLoading == old(isLoading)
      ensures !signedIn ==> unchanged(this) && updated == None
      ensures signedIn ==> sent == old(sent) + [PutTeam(teamId, name, pokemon)]
      ensures signedIn && response.Ok? ==>
                teams == ReplaceAll(old(teams), TeamId, teamId, response.data) &&
                error == old(error) && updated == Some(response.data)
      ensures signedIn && response.Fail? ==>
                teams == old(teams) && error == UpdateFailed && updated == None
    {
      updated := None;
      if !signedIn { return; }
      sent := sent + [PutTeam(teamId, name, pokemon)];
      match response {
        case Ok(updatedTeam) =>
          teams := ReplaceAll(teams, TeamId, teamId, updatedTeam);
          updated := Some(updatedTeam);
        case Fail =>
          error := UpdateFailed;
      }
    }

    /** Drops every cached entry with id `teamId`; a failure is recorded in `error`
        and the method returns normally. */
    method DeleteTeam(signedIn: bool, teamId: string, response: Response<()>)
      modifies this
      ensures isLoading == old(isLoading)
      ensures !signedIn ==> unchanged(this)
      ensures signedIn ==> sent == old(sent) + [DeleteTeamById(teamId)]
      ensures signedIn && response.Ok? ==>
                teams == RemoveAll(old(teams), TeamId, teamId) && error == old(error)
      ensures signedIn && response.Fail? ==> teams == old(teams) && error == DeleteFailed
    {
      if !signedIn { return; }
      sent := sent + [DeleteTeamById(teamId)];
      match response {
        case Ok(_) => teams := RemoveAll(teams, TeamId, teamId);
        case Fail => error := DeleteFailed;
      }
    }

    /** The `setError` setter the hook hands to the page. */
    method SetError(message: string)
      modifies this`error
      ensures error == message
    {
      error := message;
    }

    /** The `setIsLoading` setter the hook hands to the page. */
    method SetIsLoading(loading: bool)
      modifies this`isLoading
      ensures isLoading == loading
    {
      isLoading := loading;
    }
  }

  /** After a successful create, loading the new team's id finds it, provided no
      cached team already had that id. */
  lemma CreatedTeamIsFound(teams: seq<Team>, created: Team)
    requires !Any(teams, TeamId, created.id)
    ensures Find(teams + [created], TeamId, created.id) == Some(created)
  {
    FindAfterAppend(teams, TeamId, created);
  }

  /** After a successful update that echoes the id, loading that id finds the
      returned team. */
  lemma UpdatedTeamIsFound(teams: seq<Team>, teamId: string, updated: Team)
    requires Any(teams, TeamId, teamId) && updated.id == teamId
    ensures Find(ReplaceAll(teams, TeamId, teamId, updated), TeamId, teamId) == Some(updated)
  {
    FindAfterReplace(teams, TeamId, teamId, updated);
  }

  /** An update of an id that is not cached leaves the cache as it was. */
  lemma UpdateAbsentIsNoOp(teams: seq<Team>, teamId: string, updated: Team)
    requires !Any(teams, TeamId, teamId)
    ensures ReplaceAll(teams, TeamId, teamId, updated) == teams
  {
    ReplaceAllAbsent(teams, TeamId, teamId, updated);
  }

  /** Deleting an id that is not cached leaves the cache as it was. */
  lemma DeleteAbsentIsNoOp(teams: seq<Team>, teamId: string)
    requires !Any(teams, TeamId, teamId)
    ensures RemoveAll(teams, TeamId, teamId) == teams
  {
    RemoveAllAbsent(teams, TeamId, teamId);
  }

  /** Deleting the same id twice is deleting it once. */
  lemma DeleteIsIdempotent(teams: seq<Team>, teamId: string)
    ensures RemoveAll(RemoveAll(teams, TeamId, teamId), TeamId, teamId)
            == RemoveAll(teams, TeamId, teamId)
  {
    RemoveAllIdempotent(teams, TeamId, teamId);
  }
}
