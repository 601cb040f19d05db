# Pokemon team builder: client-side team state

This project models the client-side state of a small web application in which a
signed-in user assembles up to six Pokemon into a named team and keeps several saved
teams. Two pieces of state are modelled together:

- the **team builder page** (`src/app/dashboard/page.tsx`), a component that holds the
  roster being edited (`team`), its name (`teamName`), the id of the saved team being
  edited (`editingTeamId`), the selected saved team (`selectedTeam`), the search term
  and result, and whether the save dialog is open; its handlers add and remove
  members, save, load, edit and delete teams;
- the **saved-team cache** (`src/hooks/useTeams.ts`), a hook that holds the list of
  saved teams (`teams`), a loading flag (`isLoading`) and an error message (`error`),
  and fetches, creates, updates and deletes teams through the team API.

Layout:

- `lists.dfy`, module `Lists`: the array operations the two files apply to lists keyed
  by an id (`some`, `find`, `filter` that drops an id, `map` that replaces an id),
  written once and generic in how a key is read, with their lemmas: filtering keeps
  the order of what it keeps, is idempotent, is a no-op on an absent id and keeps ids
  distinct; lookups after an append, a replacement or a removal.
- `roster.dfy`, module `Roster`: the species record, the add rule (capacity before
  duplicates), the well-formedness of a roster (at most six members, distinct ids),
  the empty-slot count, and the invariant that any sequence of adds and removes keeps
  a well-formed roster well-formed.
- `use_teams.dfy`, module `UseTeams`: the class `TeamsHook` for the cache, with a
  ghost log `sent` of the requests it has issued.
- `dashboard.dfy`, module `Dashboard`: the class `PokemonTeamBuilder` for the page,
  which owns a `TeamsHook`.

A network response is an input of the operation that awaits it: `Ok(data)` for a
2xx response whose body parsed, `Fail` for anything else (a non-2xx status, or an
error while fetching or parsing). Whether a user is signed in is the parameter
`signedIn`. The species lookup of the search box is likewise an input.

Behaviour kept as the code has it:

- The hook's create and update catch every failure themselves, set their own message
  and return normally. The page's `catch` around a save (`page.tsx:123-125`) is
  therefore never reached: after a failed save the page still clears the roster, the
  name and the editing id, closes the dialog and reloads the list, and the message the
  user sees is the hook's ("Failed to create team" / "Failed to update team"), or
  "Failed to load teams" if the reload fails too. `HandleSaveTeam` states that the
  page's own message is never set.
- `if (editingTeamId)` tests JavaScript truthiness, so an empty-string id counts as
  "not editing" and a save then creates a new team; the model writes this as `Truthy`.
- The Delete button clears the selection and the roster but not `editingTeamId` or
  `teamName`. In the model, which leaves out the dialog triggers that set
  `editingTeamId` before a save (see "## Left out"), a save right after a delete
  would send an update for the deleted id.
- The roster loaded from a saved team is taken as the server returned it. The size
  and duplicate rules hold for rosters built by adds and removes.

## Model

| member | source | states |
|---|---|---|
| `Lists.Any` | src/app/dashboard/page.tsx:92 | `some` by id is true exactly when some element carries that id |
| `Lists.Find` | src/app/dashboard/page.tsx:138 | `find` by id returns nothing exactly when no element carries the id, and otherwise returns the first element that does |
| `Lists.RemoveAll` | src/app/dashboard/page.tsx:103 | `filter` by id never grows the list; an element is in the result exactly when it is in the input and its id differs |
| `Lists.RemoveAllCounts` | src/app/dashboard/page.tsx:103 | filtering keeps every element with another id exactly as often as it occurs, and no element with the id |
| `Lists.RemoveAllAppend` | src/app/dashboard/page.tsx:103 | filtering a concatenation is concatenating the filtered parts, so the kept elements keep their relative order |
| `Lists.RemoveAllAbsent` | src/hooks/useTeams.ts:92 | filtering out an id no element carries returns the list unchanged |
| `Lists.RemoveAllIdempotent` | src/app/dashboard/page.tsx:103 | filtering twice by the same id equals filtering once |
| `Lists.RemoveAllKeepsDistinct` | src/app/dashboard/page.tsx:103 | filtering a list with pairwise distinct ids leaves the ids pairwise distinct |
| `Lists.ReplaceAll` | src/hooks/useTeams.ts:73-75 | the `map`-replace keeps length and position; each entry with the id becomes the new entry, every other entry stays as it was |
| `Lists.ReplaceAllAbsent` | src/hooks/useTeams.ts:73-75 | replacing an id no entry carries leaves the list unchanged |
| `Lists.FindAfterReplace` | src/hooks/useTeams.ts:73-75 | after replacing a present id with an entry carrying that id, looking the id up finds the new entry |
| `Lists.AppendKeepsDistinct` | src/app/dashboard/page.tsx:92-96 | appending an element whose id is absent keeps the ids pairwise distinct |
| `Lists.FindAfterAppend` | src/hooks/useTeams.ts:53 | after appending an element whose id was absent, looking that id up finds it |
| `Lists.FindAfterRemove` | src/hooks/useTeams.ts:92 | after filtering an id out, looking it up finds nothing |
| `Roster.AddMember` | src/app/dashboard/page.tsx:87-96 | the roster after an add is the old roster or the old roster with the candidate last, and it grows by one exactly when the add is accepted |
| `Roster.RemoveMember` | src/app/dashboard/page.tsx:103 | the roster after a remove never grows and holds exactly the old members whose id differs |
| `Roster.EmptySlots` | src/app/dashboard/page.tsx:370 | for a roster of at most six, members plus empty slots make six, and there are no empty slots exactly when the roster has six members |
| `Dashboard.Truthy` | src/app/dashboard/page.tsx:113 | the editing-id test follows JavaScript truthiness of `string \| null` in all three cases: null is false, the empty string is false, and every other string is true |
| `Roster.CheckAdd` | src/app/dashboard/page.tsx:88-95 | an add is refused as full exactly when the team has six or more members (even if it holds the candidate), refused as a duplicate exactly when it has fewer and one carries the candidate's id, and accepted otherwise |
| `Roster.AddMemberAppends` | src/app/dashboard/page.tsx:96 | an accepted add grows the roster by one, keeps the old members as its prefix, puts the candidate last and uses up one empty slot |
| `Roster.AddKeepsWellFormed` | src/app/dashboard/page.tsx:87-100 | an add keeps a roster of at most six members with distinct ids in that shape |
| `Roster.RemoveKeepsWellFormed` | src/app/dashboard/page.tsx:102-104 | a remove keeps a roster of at most six members with distinct ids in that shape |
| `Roster.RemoveUndoesAdd` | src/app/dashboard/page.tsx:96-103 | removing the id of a member just accepted gives back the roster before the add |
| `Roster.RemoveIdempotent` | src/app/dashboard/page.tsx:103 | removing the same id twice equals removing it once |
| `Roster.EditsKeepWellFormed` | src/app/dashboard/page.tsx:88-104 | any sequence of adds and removes from a roster of at most six members with distinct ids ends in such a roster, so the empty-slot count of line 370 is a natural number and members plus empty slots make six |
| `UseTeams.TeamsHook.constructor` | src/hooks/useTeams.ts:20-22 | the cache starts with no teams, not loading and no error |
| `UseTeams.TeamsHook.FetchTeams` | src/hooks/useTeams.ts:24-39 | signed out: nothing changes and nothing is sent; signed in: one list request, the teams become the response data on success or stay and the error becomes "Failed to load teams" on failure, and loading is off afterwards |
| `UseTeams.TeamsHook.CreateTeam` | src/hooks/useTeams.ts:41-59 | never touches loading; signed out: nothing changes; signed in: one create request, on success the returned team is appended and returned, on failure the teams stay, the error becomes "Failed to create team" and it returns no team |
| `UseTeams.TeamsHook.UpdateTeam` | src/hooks/useTeams.ts:61-81 | never touches loading; signed out: nothing changes; signed in: one update request, on success every entry with the id becomes the returned team, on failure the teams stay, the error becomes "Failed to update team" and it returns no team |
| `UseTeams.TeamsHook.DeleteTeam` | src/hooks/useTeams.ts:83-97 | never touches loading; signed out: nothing changes; signed in: one delete request, on success every entry with the id is dropped, on failure the teams stay and the error becomes "Failed to delete team" |
| `UseTeams.TeamsHook.SetError` | src/hooks/useTeams.ts:104 | the error setter handed to the page sets the error and nothing else |
| `UseTeams.TeamsHook.SetIsLoading` | src/hooks/useTeams.ts:102 | the loading setter handed to the page sets the flag and nothing else |
| `UseTeams.CreatedTeamIsFound` | src/hooks/useTeams.ts:53 | after a create whose team id was not cached, loading that id finds the created team |
| `UseTeams.UpdatedTeamIsFound` | src/hooks/useTeams.ts:73-75 | after an update of a cached id that returns a team with that id, loading the id finds the returned team |
| `UseTeams.UpdateAbsentIsNoOp` | src/hooks/useTeams.ts:73-75 | a successful update of an id that is not cached leaves the cache unchanged |
| `UseTeams.DeleteAbsentIsNoOp` | src/hooks/useTeams.ts:92 | deleting an id that is not cached leaves the cache unchanged |
| `UseTeams.DeleteIsIdempotent` | src/hooks/useTeams.ts:92 | deleting the same id twice leaves the same cache as deleting it once |
| `Dashboard.PokemonTeamBuilder.constructor` | src/app/dashboard/page.tsx:34-52 | the page starts with an empty roster, name and search, no result, no edited or selected team, the dialog closed, and a fresh empty cache |
| `Dashboard.PokemonTeamBuilder.SearchPokemon` | src/app/dashboard/page.tsx:58-85 | an empty search term changes nothing; otherwise a found species becomes the search result, a failed lookup clears it and sets the not-found message, and loading is off afterwards |
| `Dashboard.PokemonTeamBuilder.AddToTeam` | src/app/dashboard/page.tsx:87-100 | a full team or a duplicate id leaves the roster and search as they were and sets "Team is full!" or "already in your team" respectively; an accepted candidate is appended last and clears the search result, the search term and the error; a roster of at most six with distinct ids stays so |
| `Dashboard.PokemonTeamBuilder.RemovePokemon` | src/app/dashboard/page.tsx:102-104 | every member with the id is dropped and every other one kept, and a roster of at most six with distinct ids stays so |
| `Dashboard.PokemonTeamBuilder.HandleSaveTeam` | src/app/dashboard/page.tsx:106-126 | no name: only the error changes, to "Please enter a team name", and nothing is sent; with a name: an update of the edited id is sent exactly when one is being edited and a create otherwise, then a reload; roster, name and edited id are cleared and the dialog closed even when the save failed; "Failed to save team" is never set |
| `Dashboard.PokemonTeamBuilder.HandleEditTeam` | src/app/dashboard/page.tsx:128-135 | with a cached id, the roster and name become those of the first team with that id and that id is being edited; with an uncached id nothing changes; the selection is never touched |
| `Dashboard.PokemonTeamBuilder.HandleLoadTeam` | src/app/dashboard/page.tsx:137-145 | as for editing, and the id also becomes the selected team |
| `Dashboard.PokemonTeamBuilder.DeleteSelectedTeam` | src/app/dashboard/page.tsx:312-329 | the selected team is deleted through the cache, then the selection and the roster are cleared; the name and the edited id stay as they were |

## Left out

- Roster.EmptySlots: requires at most six members. A loaded team with more than
  six members would make `Array(6 - team.length)` (`page.tsx:370`) throw a
  RangeError, and the model does not capture that throw; adds and removes alone never
  produce such a roster (`Roster.EditsKeepWellFormed`).
- Member ids of loaded teams: the create route stores each member's `id` as sent,
  while the update route stores the species id as `pokemonId` and leaves the row's
  `id` to the datastore, so after a load the duplicate test of an add may compare
  stored row ids with a species id. The model treats every id as an opaque integer;
  its contracts hold for any ids, but it does not model which id the server stores.

- The species lookup's request (the lower-cased search term in the URL) and the
  extraction of id, name, sprite and types from its reply (`page.tsx:62-77`) are
  network I/O; the lookup's outcome is the input of `SearchPokemon`.
- The server routes (`src/app/api/teams/route.ts`, `src/app/api/teams/[teamsId]/route.ts`)
  and the session provider: a response is an input, so nothing relates what the
  server returns to what was sent (for example, that a created team carries the sent
  name and roster).
- The initial load on mount (`page.tsx:54-56`), the rendering, the dialog wiring
  (`onOpenChange`, and the buttons that set `editingTeamId` before opening a dialog)
  and the text fields' change handlers: they are UI plumbing that sets a field to a
  value typed or clicked.
- Asynchrony: each handler runs to completion against the current state. The model
  does not capture React's batching of setters, setters that read a stale `teams` or
  `team` captured by an earlier render, or that `fetchTeams()` after a save and
  `deleteTeam` in the Delete button are not awaited and may interleave with later
  handlers.
- `console.error` logging of caught errors.
- The request bodies' JSON encoding: a request is recorded by its kind and fields.
