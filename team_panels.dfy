/** The saved-team panels, Teammanagement and ViewTeam. Both hold the teams
    fetched from the server, drop a team by its numeric id after a delete,
    and edit a team in a modal: the name edit builds a new team object,
    while the member edits write into the member objects, which the team in
    the modal shares with the team in the list. Team objects are never
    written in place, so their fields are `const`; member objects are. */
module TeamPanels {
  import opened Optional
  import opened JsText
  import opened ListOps

  class Member {
    const dbId: string
    var name: string
    var email: string
    var semester: string

    constructor (dbId: string, name: string, email: string, semester: string)
      ensures this.dbId == dbId && this.name == name && this.email == email && this.semester == semester
    {
      this.dbId := dbId;
      this.name := name;
      this.email := email;
      this.semester := semester;
    }
  }

  /** A saved team; ViewTeam calls the name field `teamName`. */
  class SavedTeam {
    const dbId: string
    const id: int
    const name: string
    const members: seq<Member>

    constructor (dbId: string, id: int, name: string, members: seq<Member>)
      ensures this.dbId == dbId && this.id == id && this.name == name && this.members == members
    {
      this.dbId := dbId;
      this.id := id;
      this.name := name;
      this.members := members;
    }
  }

  /** Which member input changed. */
  datatype MemberField = Name | Email | Semester

  /** Whether a team survives the delete of numeric id `id`. */
  function KeepsId(id: int): SavedTeam -> bool
  {
    (t: SavedTeam) => t.id != id
  }

  /** `handleDelete`'s `filter((team) => team.id !== id)`. */
  function WithoutId(teams: seq<SavedTeam>, id: int): seq<SavedTeam>
  {
    Filter(teams, KeepsId(id))
  }

  /** `handleSaveEdit`'s `map`: every team with the id becomes the server's
      team. */
  function ReplacingId(teams: seq<SavedTeam>, id: int, updated: SavedTeam): (r: seq<SavedTeam>)
    ensures |r| == |teams|
  {
    seq(|teams|, i requires 0 <= i < |teams| => if teams[i].id == id then updated else teams[i])
  }

  /** The card heading: `team.name || \`Team ${team.id}\``. */
  function CardTitle(team: SavedTeam): string
  {
    if team.name == "" then "Team " + IntText(team.id) else team.name
  }

  /** Only the teams with the id go, the rest keep their order, and a
      missing id changes nothing. */
  lemma WithoutIdMeaning(teams: seq<SavedTeam>, id: int)
    ensures forall t :: t in WithoutId(teams, id) <==> t in teams && t.id != id
    ensures forall a, b :: teams == a + b ==> WithoutId(teams, id) == WithoutId(a, id) + WithoutId(b, id)
    ensures (forall i :: 0 <= i < |teams| ==> teams[i].id != id) ==> WithoutId(teams, id) == teams
  {
    FilterMembers(teams, KeepsId(id));
    forall a, b | teams == a + b
      ensures WithoutId(teams, id) == WithoutId(a, id) + WithoutId(b, id)
    {
      FilterConcat(a, b, KeepsId(id));
    }
    if forall i :: 0 <= i < |teams| ==> teams[i].id != id {
      FilterKeepsAll(teams, KeepsId(id));
    }
  }

  /** Saving an edit keeps every team without the id, puts the server's
      team wherever the id was, and so never changes the ids present when
      the server keeps the id. */
  lemma ReplacingIdMeaning(teams: seq<SavedTeam>, id: int, updated: SavedTeam)
    ensures var r := ReplacingId(teams, id, updated);
      (forall i :: 0 <= i < |teams| && teams[i].id != id ==> r[i] == teams[i]) &&
      (forall i :: 0 <= i < |teams| && teams[i].id == id ==> r[i] == updated) &&
      (updated.id == id ==> forall i :: 0 <= i < |teams| ==> r[i].id == teams[i].id)
  {
  }

  /** A card never has an empty heading, and a named team shows its name. */
  lemma CardTitleMeaning(team: SavedTeam)
    ensures |CardTitle(team)| > 0
    ensures team.name != "" ==> CardTitle(team) == team.name
    ensures team.name == "" ==> CardTitle(team)[..5] == "Team "
  {
  }

  /** The state both panels keep. */
  class TeamPanel {
    var teams: seq<SavedTeam>
    var loading: bool
    var error: string
    var editingTeam: Option<SavedTeam>
    var showModal: bool

    constructor ()
      ensures teams == [] && loading && error == "" && editingTeam == None && !showModal
    {
      teams := [];
      loading := true;
      error := "";
      editingTeam := None;
      showModal := false;
    }

    /** `fetchTeams`: the server's list, or the error text. */
    method HandleFetch(response: Option<seq<SavedTeam>>)
      modifies this
      ensures !loading && editingTeam == old(editingTeam) && showModal == old(showModal)
      ensures response.Some? ==> teams == response.value && error == old(error)
      ensures response.None? ==> teams == old(teams) && error == "Failed to fetch teams."
    {
      if response.Some? {
        teams := response.value;
      } else {
        error := "Failed to fetch teams.";
      }
      loading := false;
    }

    /** ViewTeam renders the grid only once loaded, without an error and
        with at least one team. */
    predicate ShowsGrid()
      reads this
    {
      !loading && error == "" && |teams| > 0
    }

    /** `handleDelete`, after the server answered the delete (`deleted`) or
        failed. */
    method HandleDelete(id: int, deleted: bool)
      modifies this
      ensures teams == if deleted then WithoutId(old(teams), id) else old(teams)
      ensures editingTeam == old(editingTeam) && showModal == old(showModal)
      ensures loading == old(loading) && error == old(error)
    {
      if deleted {
        teams := WithoutId(teams, id);
      }
    }

    /** Teammanagement's `handleEdit`: a shallow copy `{ ...team }`, a new
        team object holding the same member objects. */
    method HandleEditCopy(team: SavedTeam)
      modifies this
      ensures editingTeam.Some? && fresh(editingTeam.value) && showModal
      ensures editingTeam.value.id == team.id && editingTeam.value.name == team.name
      ensures editingTeam.value.members == team.members
      ensures teams == old(teams) && loading == old(loading) && error == old(error)
    {
      var copy := new SavedTeam(team.dbId, team.id, team.name, team.members);
      editingTeam := Some(copy);
      showModal := true;
    }

    /** ViewTeam's `handleEdit`: the listed team object itself. */
    method HandleEditSame(team: SavedTeam)
      modifies this
      ensures editingTeam == Some(team) && showModal
      ensures teams == old(teams) && loading == old(loading) && error == old(error)
    {
      editingTeam := Some(team);
      showModal := true;
    }

    /** `handleModalClose`. */
    method HandleModalClose()
      modifies this
      ensures editingTeam == None && !showModal
      ensures teams == old(teams) && loading == old(loading) && error == old(error)
    {
      editingTeam := None;
      showModal := false;
    }

    /** The team name input: `{ ...editingTeam, name: value }`, a new team
        object; the listed team keeps its name. */
    method HandleNameChange(value: string)
      requires editingTeam.Some?
      modifies this
      ensures editingTeam.Some? && fresh(editingTeam.value)
      ensures editingTeam.value.name == value && editingTeam.value.id == old(editingTeam.value.id)
      ensures editingTeam.value.members == old(editingTeam.value.members)
      ensures teams == old(teams) && showModal == old(showModal)
      ensures loading == old(loading) && error == old(error)
    {
      var t := editingTeam.value;
      var renamed := new SavedTeam(t.dbId, t.id, value, t.members);
      editingTeam := Some(renamed);
    }

    /** A member input: copy the member list (the same member objects),
        write the field into member `index`, and hold a new team object with
        that list. */
    method HandleMemberChange(index: nat, field: MemberField, value: string)
      requires editingTeam.Some? && index < |editingTeam.value.members|
      modifies this, editingTeam.value.members[index]
      ensures editingTeam.Some? && fresh(editingTeam.value)
      ensures editingTeam.value.members == old(editingTeam.value.members)
      ensures editingTeam.value.id == old(editingTeam.value.id)
      ensures editingTeam.value.name == old(editingTeam.value.name)
      ensures var m := editingTeam.value.members[index];
        (field == Name ==> m.name == value && m.email == old(m.email) && m.semester == old(m.semester)) &&
        (field == Email ==> m.email == value && m.name == old(m.name) && m.semester == old(m.semester)) &&
        (field == Semester ==> m.semester == value && m.name == old(m.name) && m.email == old(m.email))
      ensures teams == old(teams) && showModal == old(showModal)
      ensures loading == old(loading) && error == old(error)
    {
      var t := editingTeam.value;
      var updatedMembers := t.members;
      var m := updatedMembers[index];
      match field {
        case Name => m.name := value;
        case Email => m.email := value;
        case Semester => m.semester := value;
      }
      var edited := new SavedTeam(t.dbId, t.id, t.name, updatedMembers);
      editingTeam := Some(edited);
    }

    /** `handleSaveEdit`, given the team the server sent back (None when the
        request failed). The modal closes on success, but `editingTeam` is
        kept. */
    method HandleSaveEdit(response: Option<SavedTeam>)
      modifies this
      ensures editingTeam == old(editingTeam) && loading == old(loading) && error == old(error)
      ensures old(editingTeam).Some? && response.Some? ==>
        teams == ReplacingId(old(teams), old(editingTeam).value.id, response.value) && !showModal
      ensures !(old(editingTeam).Some? && response.Some?) ==>
        teams == old(teams) && showModal == old(showModal)
    {
      if editingTeam.Some? && response.Some? {
        teams := ReplacingId(teams, editingTeam.value.id, response.value);
        showModal := false;
      }
    }
  }

  /** Editing a member name in Teammanagement's modal and then pressing
      Cancel leaves the new name in the listed team: the copy shares the
      member objects. */
  method CancelKeepsMemberEdit(value: string) returns (listedName: string)
    ensures listedName == value
  {
    var member := new Member("m1", "Ada", "ada@example.org", "First");
    var team := new SavedTeam("t1", 1, "Alpha", [member]);
    var panel := new TeamPanel();
    panel.HandleFetch(Some([team]));
    panel.HandleEditCopy(team);
    panel.HandleMemberChange(0, Name, value);
    panel.HandleModalClose();
    listedName := panel.teams[0].members[0].name;
  }

  /** In ViewTeam's modal a name edit builds a new object, so even though
      the modal started from the listed team itself, that team keeps its
      name after Cancel. */
  method CancelDropsNameEdit(value: string) returns (listedName: string)
    ensures listedName == "Alpha"
  {
    var member := new Member("m1", "Ada", "ada@example.org", "First");
    var team := new SavedTeam("t1", 1, "Alpha", [member]);
    var panel := new TeamPanel();
    panel.HandleFetch(Some([team]));
    panel.HandleEditSame(team);
    panel.HandleNameChange(value);
    panel.HandleModalClose();
    listedName := panel.teams[0].name;
  }
}
