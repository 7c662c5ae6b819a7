/** The team handlers of the Express backend, as decisions from the request
    fields and the outcome of the Mongoose call to the reply sent. */
module TeamController {
  import opened Http

  /** `registerTeam`: a team id and a non-empty member list, then `save`. */
  function RegisterTeam(teamId: JsValue, members: JsValue, save: DbOutcome): Reply
    requires save != NoDocument
  {
    if Falsy(teamId) || MissingOrEmpty(members) then Reply(400, "Team ID and members are required")
    else if save.Done? then Reply(200, "Team registered successfully")
    else SaveErrorReply(save.code, "Duplicate team ID detected. A team with this ID already exists.",
                        "An unexpected error occurred")
  }

  lemma RegisterTeamMeaning(teamId: JsValue, members: JsValue, save: DbOutcome)
    requires save != NoDocument
    ensures var r := RegisterTeam(teamId, members, save);
      var complete := !Falsy(teamId) && !MissingOrEmpty(members);
      r.Reply? &&
      (r.status == 400 <==> !complete) &&
      (r.status == 200 <==> complete && save.Done?) &&
      (r.status == 409 <==> complete && save == Threw(DuplicateKey)) &&
      (r.status == 500 <==> complete && save.Threw? && save.code != DuplicateKey)
  {
  }

  /** `getAllTeams`: unlike `getAllUsers`, an empty collection is refused
      and an error is answered. */
  function GetAllTeams(found: FindOutcome): Reply
  {
    match found
    case FindThrew => Reply(500, "Server error")
    case Listed(count) =>
      if Falsy(Array(count)) || count == 0 then Reply(400, "No teams found") else Reply(200, "")
  }

  lemma GetAllTeamsMeaning(found: FindOutcome)
    ensures var r := GetAllTeams(found);
      r.Reply? &&
      (r.status == 400 <==> found == Listed(0)) &&
      (r.status == 200 <==> found.Listed? && found.count > 0) &&
      (r.status == 500 <==> found == FindThrew)
  {
  }

  /** `editTeam`: team id, name and a non-empty member list, then
      `findByIdAndUpdate`. */
  function EditTeam(teamId: JsValue, name: JsValue, members: JsValue, update: DbOutcome): Reply
  {
    if Falsy(teamId) || Falsy(name) || MissingOrEmpty(members) then Reply(400, "Missing required fields.")
    else match update
      case NoDocument => Reply(404, "Team not found.")
      case Done => Reply(200, "Team updated successfully")
      case Threw(_) => Reply(500, "Server error")
  }

  lemma EditTeamMeaning(teamId: JsValue, name: JsValue, members: JsValue, update: DbOutcome)
    ensures var r := EditTeam(teamId, name, members, update);
      var complete := !Falsy(teamId) && !Falsy(name) && !MissingOrEmpty(members);
      r.Reply? &&
      (r.status == 400 <==> !complete) &&
      (r.status == 404 <==> complete && update == NoDocument) &&
      (r.status == 200 <==> complete && update == Done) &&
      (r.status == 500 <==> complete && update.Threw?)
  {
  }

  /** `deleteTeam`: the id, then `findByIdAndDelete`. */
  function DeleteTeam(id: JsValue, delete: DbOutcome): Reply
  {
    if Falsy(id) then Reply(400, "Team ID is required")
    else match delete
      case NoDocument => Reply(404, "Team not found")
      case Done => Reply(200, "Team deleted successfully")
      case Threw(_) => Reply(500, "Server error")
  }

  lemma DeleteTeamMeaning(id: JsValue, delete: DbOutcome)
    ensures var r := DeleteTeam(id, delete);
      r.Reply? &&
      (r.status == 400 <==> Falsy(id)) &&
      (r.status == 404 <==> !Falsy(id) && delete == NoDocument) &&
      (r.status == 200 <==> !Falsy(id) && delete == Done) &&
      (r.status == 500 <==> !Falsy(id) && delete.Threw?)
  {
  }

  /** `saveTeams`: a non-empty list, then one `insertMany`, which writes
      the teams or throws. */
  function SaveTeams(teams: JsValue, insert: DbOutcome): Reply
    requires insert != NoDocument
  {
    if MissingOrEmpty(teams) then Reply(400, "No teams data provided")
    else if insert.Done? then Reply(200, "Teams saved successfully")
    else Reply(500, "Failed to save teams")
  }

  lemma SaveTeamsMeaning(teams: JsValue, insert: DbOutcome)
    requires insert != NoDocument
    ensures var r := SaveTeams(teams, insert);
      r.Reply? &&
      (r.status == 400 <==> MissingOrEmpty(teams)) &&
      (r.status == 200 <==> !MissingOrEmpty(teams) && insert.Done?) &&
      (r.status == 500 <==> !MissingOrEmpty(teams) && insert.Threw?)
  {
  }
}
