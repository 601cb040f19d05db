/** The roster-composition rules of the team builder page: a team holds at most six
    Pokemon, no two with the same id. `addToTeam` checks the size first and the
    duplicate second; `removePokemon` drops every member with an id. */
module Roster {
  import opened Lists

  /** A roster member: an id, a name, a sprite URL and type labels. After a species
      lookup the id is the external species id; a member of a loaded team carries
      whatever id the server stored for it. */
  datatype Pokemon = Pokemon(id: int, name: string, sprite: string, types: seq<string>)

  function PokemonId(p: Pokemon): (r: int) { p.id }

  const MaxTeamSize: nat := 6

  const TeamFullMessage := "Team is full! Remove a Pokemon first."
  const DuplicateMessage := "This Pokemon is already in your team!"

  /** The three ways `addToTeam` can end. */
  datatype AddVerdict = Accepted | TeamFull | AlreadyInTeam

  /** Capacity is checked before duplicates, so a full team that already holds the
      candidate reports "full". */
  function CheckAdd(team: seq<Pokemon>, p: Pokemon): (v: AddVerdict)
    ensures v == TeamFull <==> |team| >= MaxTeamSize
    ensures v == AlreadyInTeam <==>
              |team| < MaxTeamSize && exists i :: 0 <= i < |team| && team[i].id == p.id
    ensures v == Accepted <==>
              |team| < MaxTeamSize && forall i :: 0 <= i < |team| ==> team[i].id != p.id
  {
    if |team| >= MaxTeamSize then TeamFull
    else if Any(team, PokemonId, p.id) then AlreadyInTeam
    else Accepted
  }

  /** The roster after `addToTeam(p)`: the old roster, with the candidate appended
      last exactly when the add is accepted. */
  function AddMember(team: seq<Pokemon>, p: Pokemon): (r: seq<Pokemon>)
    ensures r == team || r == team + [p]
    ensures |r| == |team| + 1 <==> CheckAdd(team, p) == Accepted
  {
    if CheckAdd(team, p) == Accepted then team + [p] else team
  }

  /** The roster after `removePokemon(id)`: exactly the members with another id. */
  function RemoveMember(team: seq<Pokemon>, id: int): (r: seq<Pokemon>)
    ensures |r| <= |team|
    ensures forall x :: x in r <==> x in team && x.id != id
  {
    RemoveAll(team, PokemonId, id)
  }

  /** What the page relies on for its roster: at most six members, ids pairwise
      distinct. */
  ghost predicate WellFormed(team: seq<Pokemon>) {
    |team| <= MaxTeamSize && DistinctKeys(team, PokemonId)
  }

  /** The number of "Empty Slot" cards; `Array(6 - team.length)` throws on a
      negative length, so the count is only defined on a roster of at most six. */
  function EmptySlots(team: seq<Pokemon>): (n: nat)
    requires |team| <= MaxTeamSize
    ensures |team| + n == MaxTeamSize
    ensures n == 0 <==> |team| == MaxTeamSize
  {
    MaxTeamSize - |team|
  }

  /** An accepted add appends exactly the candidate and uses up one empty slot. */
  lemma AddMemberAppends(team: seq<Pokemon>, p: Pokemon)
    requires CheckAdd(team, p) == Accepted
    ensures |AddMember(team, p)| == |team| + 1
    ensures AddMember(team, p)[..|team|] == team && AddMember(team, p)[|team|] == p
    ensures EmptySlots(AddMember(team, p)) + 1 == EmptySlots(team)
  {
  }

  lemma AddKeepsWellFormed(team: seq<Pokemon>, p: Pokemon)
    requires WellFormed(team)
    ensures WellFormed(AddMember(team, p))
  {
    if CheckAdd(team, p) == Accepted {
      AppendKeepsDistinct(team, PokemonId, p);
    }
  }

  lemma RemoveKeepsWellFormed(team: seq<Pokemon>, id: int)
    requires WellFormed(team)
    ensures WellFormed(RemoveMember(team, id))
  {
    RemoveAllKeepsDistinct(team, PokemonId, id);
  }

  /** Removing the member just added gives back the roster before the add. */
  lemma RemoveUndoesAdd(team: seq<Pokemon>, p: Pokemon)
    requires CheckAdd(team, p) == Accepted
    ensures RemoveMember(AddMember(team, p), p.id) == team
  {
    RemoveAllAppend(team, [p], PokemonId, p.id);
    RemoveAllAbsent(team, PokemonId, p.id);
  }

  /** Removing the same id twice is removing it once. */
  lemma RemoveIdempotent(team: seq<Pokemon>, id: int)
    ensures RemoveMember(RemoveMember(team, id), id) == RemoveMember(team, id)
  {
    RemoveAllIdempotent(team, PokemonId, id);
  }

  /** One user action on the roster. */
  datatype RosterEdit = Add(candidate: Pokemon) | Remove(id: int)

  function ApplyEdit(team: seq<Pokemon>, e: RosterEdit): (r: seq<Pokemon>) {
    match e
    case Add(p) => AddMember(team, p)
    case Remove(id) => RemoveMember(team, id)
  }

  function ApplyEdits(team: seq<Pokemon>, edits: seq<RosterEdit>): (r: seq<Pokemon>)
    decreases |edits|
  {
    if edits == [] then team else ApplyEdits(ApplyEdit(team, edits[0]), edits[1..])
  }

  /** Any sequence of adds and removes keeps a well-formed roster well-formed, so the
      empty-slot count stays defined. */
  lemma {:induction false} EditsKeepWellFormed(team: seq<Pokemon>, edits: seq<RosterEdit>)
    requires WellFormed(team)
    ensures WellFormed(ApplyEdits(team, edits))
    ensures |ApplyEdits(team, edits)| + EmptySlots(ApplyEdits(team, edits)) == MaxTeamSize
    decreases |edits|
  {
    if edits != [] {
      match edits[0] {
        case Add(p) => AddKeepsWellFormed(team, p);
        case Remove(id) => RemoveKeepsWellFormed(team, id);
      }
      EditsKeepWellFormed(ApplyEdit(team, edits[0]), edits[1..]);
    }
  }
}
