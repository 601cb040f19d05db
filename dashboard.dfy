/** The team builder page: the component state it keeps itself and the handlers that
    update it, over the `useTeams` cache it owns. Each handler runs to completion
    against the current state; a request's outcome is an input of the handler. */
module Dashboard {
  import opened Lists
  import opened Roster
  import opened UseTeams

  const NameMissingMessage := "Please enter a team name"
  const NotFoundMessage := "Pokemon not found. Please check the spelling and try again."
  /** The message of the page's own `catch` around a save. The hook's create and
      update catch every failure themselves and return normally, so the page never
      sets it. */
  const SaveFailedMessage := "Failed to save team"

  /** JavaScript truthiness of a `string | null`: null and "" are false, every other
      string is true. */
  predicate Truthy(id: Option<string>): (b: bool)
    ensures id == None ==> !b
    ensures id == Some("") ==> !b
    ensures id.Some? && id.value != "" ==> b
  {
    id.Some? && id.value != ""
  }

  class PokemonTeamBuilder {
    var searchTerm: string
    var searchResult: Option<Pokemon>
    var team: seq<Pokemon>
    var teamName: string
    var isDialogOpen: bool
    var editingTeamId: Option<string>
    var selectedTeam: Option<string>
    const hook: TeamsHook

    constructor ()
      ensures fresh(hook)
      ensures searchTerm == "" && searchResult == None && team == [] && teamName == ""
      ensures !isDialogOpen && editingTeamId == None && selectedTeam == None
      ensures hook.teams == [] && !hook.isLoading && hook.error == "" && hook.sent == []
    {
      searchTerm, searchResult, team, teamName := "", None, [], "";
      isDialogOpen, editingTeamId, selectedTeam := false, None, None;
      hook := new TeamsHook();
    }

    /** The state side of a species lookup; the lookup itself is the input `lookup`.
        Nothing happens for an empty search term. */
    method SearchPokemon(lookup: Response<Pokemon>)
      modifies this, hook
      ensures searchTerm == old(searchTerm) && team == old(team) && teamName == old(teamName)
      ensures isDialogOpen == old(isDialogOpen) && editingTeamId == old(editingTeamId)
      ensures selectedTeam == old(selectedTeam)
      ensures hook.teams == old(hook.teams) && hook.sent == old(hook.sent)
      ensures searchTerm == "" ==>
                searchResult == old(searchResult) && hook.isLoading == old(hook.isLoading) &&
                hook.error == old(hook.error)
      ensures searchTerm != "" && lookup.Ok? ==>
                searchResult == Some(lookup.data) && !hook.isLoading && hook.error == old(hook.error)
      ensures searchTerm != "" && lookup.Fail? ==>
                searchResult == None && !hook.isLoading && hook.error == NotFoundMessage
    {
      if searchTerm == "" { return; }
      hook.SetIsLoading(true);
      match lookup {
        case Ok(p) =>
          searchResult := Some(p);
        case Fail =>
          hook.SetError(NotFoundMessage);
          searchResult := None;
      }
      hook.SetIsLoading(false);
    }

    /** Capacity first, then duplicates; an accepted candidate is appended and the
        search is cleared. A well-formed roster stays well-formed. */
    method AddToTeam(p: Pokemon)
      modifies this, hook
      ensures teamName == old(teamName) && isDialogOpen == old(isDialogOpen)
      ensures editingTeamId == old(editingTeamId) && selectedTeam == old(selectedTeam)
      ensures hook.teams == old(hook.teams) && hook.isLoading == old(hook.isLoading)
      ensures hook.sent == old(hook.sent)
      ensures team == ApplyEdit(old(team), Add(p))
      ensures CheckAdd(old(team), p) == TeamFull ==>
                team == old(team) && hook.error == TeamFullMessage &&
                searchResult == old(searchResult) && searchTerm == old(searchTerm)
      ensures CheckAdd(old(team), p) == AlreadyInTeam ==>
                team == old(team) && hook.error == DuplicateMessage &&
                searchResult == old(searchResult) && searchTerm == old(searchTerm)
      ensures CheckAdd(old(team), p) == Accepted ==>
                team == old(team) + [p] && searchResult == None && searchTerm == "" &&
                hook.error == ""
      ensures old(WellFormed(team)) ==> WellFormed(team)
    {
      if |team| >= MaxTeamSize {
        hook.SetError(TeamFullMessage);
        return;
      }
      if Any(team, PokemonId, p.id) {
        hook.SetError(DuplicateMessage);
        return;
      }
      ghost var before := team;
      team := team + [p];
      searchResult := None;
      searchTerm := "";
      hook.SetError("");
      if WellFormed(before) { AddKeepsWellFormed(before, p); }
    }

    /** Drops every member with id `pokemonId`, keeping the others in order. A
        well-formed roster stays well-formed. */
    method RemovePokemon(pokemonId: int)
      modifies this`team
      ensures team == ApplyEdit(old(team), Remove(pokemonId))
      ensures forall x :: x in team <==> x in old(team) && x.id != pokemonId
      ensures old(WellFormed(team)) ==> WellFormed(team)
    {
      ghost var before := team;
      team := RemoveAll(team, PokemonId, pokemonId);
      if WellFormed(before) { RemoveKeepsWellFormed(before, pokemonId); }
    }

    /** Saves the roster under `teamName`: an update when a team is being edited, a
        create otherwise, then a reload of the list. The editing state is cleared
        whatever the outcome of the save, because the hook reports a failed save
        only through `error`. `saved` is the create or update response, `reloaded`
        the response to the reload. */
    method HandleSaveTeam(signedIn: bool, saved: Response<Team>, reloaded: Response<seq<Team>>)
      modifies this, hook
      ensures searchTerm == old(searchTerm) && searchResult == old(searchResult)
      ensures selectedTeam == old(selectedTeam)
      ensures hook.error == SaveFailedMessage ==> old(hook.error) == SaveFailedMessage
      // no name: only the error changes, nothing is sent
      ensures old(teamName) == "" ==>
                team == old(team) && teamName == old(teamName) &&
                isDialogOpen == old(isDialogOpen) && editingTeamId == old(editingTeamId) &&
                hook.teams == old(hook.teams) && hook.isLoading == old(hook.isLoading) &&
                hook.sent == old(hook.sent) && hook.error == NameMissingMessage
      // a name: the editing state is reset in every case
      ensures old(teamName) != "" ==>
                teamName == "" && team == [] && editingTeamId == None && !isDialogOpen
      ensures old(teamName) != "" && !signedIn ==>
                hook.teams == old(hook.teams) && hook.isLoading == old(hook.isLoading) &&
                hook.error == old(hook.error) && hook.sent == old(hook.sent)
      // signed in: an update if and only if an id is being edited, then a reload
      ensures old(teamName) != "" && signedIn ==>
                !hook.isLoading &&
                hook.sent == old(hook.sent) +
                  [if Truthy(old(editingTeamId))
                   then PutTeam(old(editingTeamId).value, old(teamName), old(team))
                   else PostTeam(old(teamName), old(team))] +
                  [ListTeams]
      ensures old(teamName) != "" && signedIn && reloaded.Ok? ==> hook.teams == reloaded.data
      ensures old(teamName) != "" && signedIn && reloaded.Fail? ==> hook.error == LoadFailed
      ensures old(teamName) != "" && signedIn && reloaded.Fail? && saved.Ok? ==>
                hook.teams == if Truthy(old(editingTeamId))
                              then ReplaceAll(old(hook.teams), TeamId, old(editingTeamId).value, saved.data)
                              else old(hook.teams) + [saved.data]
      ensures old(teamName) != "" && signedIn && reloaded.Fail? && saved.Fail? ==>
                hook.teams == old(hook.teams)
      ensures old(teamName) != "" && signedIn && reloaded.Ok? ==>
                hook.error == if saved.Ok? then old(hook.error)
                              else if Truthy(old(editingTeamId)) then UpdateFailed
                              else CreateFailed
    {
      if teamName == "" {
        hook.SetError(NameMissingMessage);
        return;
      }
      if Truthy(editingTeamId) {
        var _ := hook.UpdateTeam(signedIn, editingTeamId.value, teamName, team, saved);
      } else {
        var _ := hook.CreateTeam(signedIn, teamName, team, saved);
      }
      teamName := "";
      team := [];
      editingTeamId := None;
      isDialogOpen := false;
      hook.FetchTeams(signedIn, reloaded);
    }

    /** Copies the first cached team with id `teamId` into the editing state; an id
        that is not cached changes nothing. */
    method HandleEditTeam(teamId: string)
      modifies this`team, this`teamName, this`editingTeamId
      ensures Find(hook.teams, TeamId, teamId).None? ==>
                team == old(team) && teamName == old(teamName) && editingTeamId == old(editingTeamId)
      ensures Find(hook.teams, TeamId, teamId).Some? ==>
                var t := Find(hook.teams, TeamId, teamId).value;
                t in hook.teams && t.id == teamId &&
                team == t.pokemon && teamName == t.name && editingTeamId == Some(teamId)
    {
      var found := Find(hook.teams, TeamId, teamId);
      if found.Some? {
        team := found.value.pokemon;
        teamName := found.value.name;
        editingTeamId := Some(teamId);
      }
    }

    /** As `HandleEditTeam`, and also marks the team as the selected one. */
    method HandleLoadTeam(teamId: string)
      modifies this`team, this`teamName, this`editingTeamId, this`selectedTeam
      ensures Find(hook.teams, TeamId, teamId).None? ==>
                team == old(team) && teamName == old(teamName) &&
                editingTeamId == old(editingTeamId) && selectedTeam == old(selectedTeam)
      ensures Find(hook.teams, TeamId, teamId).Some? ==>
                var t := Find(hook.teams, TeamId, teamId).value;
                t in hook.teams && t.id == teamId &&
                team == t.pokemon && teamName == t.name &&
                selectedTeam == Some(teamId) && editingTeamId == Some(teamId)
    {
      var found := Find(hook.teams, TeamId, teamId);
      if found.Some? {
        team := found.value.pokemon;
        teamName := found.value.name;
        selectedTeam := Some(teamId);
        editingTeamId := Some(teamId);
      }
    }

    /** The Delete button, shown only while a team is selected: deletes it, then
        clears the selection and the roster. `teamName` and `editingTeamId` are left
        as they were. */
    method DeleteSelectedTeam(signedIn: bool, response: Response<()>)
      requires Truthy(selectedTeam)
      modifies this, hook
      ensures selectedTeam == None && team == []
      ensures searchTerm == old(searchTerm) && searchResult == old(searchResult)
      ensures teamName == old(teamName) && editingTeamId == old(editingTeamId)
      ensures isDialogOpen == old(isDialogOpen) && hook.isLoading == old(hook.isLoading)
      ensures !signedIn ==>
                hook.teams == old(hook.teams) && hook.error == old(hook.error) &&
                hook.sent == old(hook.sent)
      ensures signedIn ==> hook.sent == old(hook.sent) + [DeleteTeamById(old(selectedTeam).value)]
      ensures signedIn && response.Ok? ==>
                hook.teams == RemoveAll(old(hook.teams), TeamId, old(selectedTeam).value) &&
                hook.error == old(hook.error)
      ensures signedIn && response.Fail? ==>
                hook.teams == old(hook.teams) && hook.error == DeleteFailed
    {
      hook.DeleteTeam(signedIn, selectedTeam.value, response);
      selectedTeam := None;
      team := [];
    }
  }
}
