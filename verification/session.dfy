/** The two browser key-value stores a team's identity lives in:
    `localStorage` (kept across tabs) and `sessionStorage` (the older home of
    the same keys, still written for cached clients). */
module Session {
  import opened Options
  import opened Strings
  import opened Schema

  const TeamIdKey := "teamId"
  const TeamNameKey := "teamName"
  const GameIdKey := "gameId"

  /** The keys that make up a team session. */
  function TeamKeys(): set<string> {
    {TeamIdKey, TeamNameKey, GameIdKey}
  }

  /** The stored team and game ids are both present and non-empty. */
  predicate HasTeamSession(teamId: Option<string>, gameId: Option<string>) {
    Text(teamId) != "" && Text(gameId) != ""
  }

  /** The stored game id names the current game: `currentGame.id ===
      parseInt(storedGameId, 10)`, which a text that does not parse never meets. */
  predicate SameGame(currentGame: Option<Game>, gameId: Option<string>) {
    currentGame.Some? && gameId.Some? && Some(currentGame.value.id) == ParseInt(gameId.value)
  }

  /** What a successful join stores is a session for the game joined: a later
      check against that game keeps it. */
  lemma JoinedSessionIsKept(teamId: int, game: Game)
    ensures HasTeamSession(Some(IntToString(teamId)), Some(IntToString(game.id)))
    ensures SameGame(Some(game), Some(IntToString(game.id)))
  {
    ParseIntOfIntToString(game.id);
  }

  class TeamStorage {
    var local: map<string, string>
    var session: map<string, string>

    constructor (local0: map<string, string>, session0: map<string, string>)
      ensures local == local0 && session == session0
    {
      local, session := local0, session0;
    }

    /** `readTeamValue(key)`: the local value when it is a non-empty string,
        otherwise whatever the session store holds (possibly nothing). */
    function ReadTeamValue(key: string): (v: Option<string>)
      reads this
      ensures key in local && local[key] != "" ==> v == Some(local[key])
      ensures !(key in local && local[key] != "") && key in session ==> v == Some(session[key])
      ensures v.None? <==> !(key in local && local[key] != "") && key !in session
    {
      if key in local && local[key] != "" then Some(local[key])
      else if key in session then Some(session[key])
      else None
    }

    /** `clearTeamSession`: the three team keys are gone from both stores and
        every other key keeps its value. */
    method ClearTeamSession()
      modifies this
      ensures local == old(local) - TeamKeys() && session == old(session) - TeamKeys()
      ensures forall k :: k in TeamKeys() ==> ReadTeamValue(k).None?
      ensures forall k :: k !in TeamKeys() ==> ReadTeamValue(k) == old(ReadTeamValue(k))
    {
      local := local - {TeamIdKey};
      local := local - {TeamNameKey};
      local := local - {GameIdKey};
      session := session - {TeamIdKey};
      session := session - {TeamNameKey};
      session := session - {GameIdKey};
    }

    /** What a successful join stores: the new team id, the trimmed name and the
        current game id, written as strings into both stores. */
    method RecordJoin(teamId: int, name: string, gameId: int)
      modifies this
      ensures local == old(local)[TeamIdKey := IntToString(teamId)][TeamNameKey := name][GameIdKey := IntToString(gameId)]
      ensures session == old(session)[TeamIdKey := IntToString(teamId)][TeamNameKey := name][GameIdKey := IntToString(gameId)]
      ensures ReadTeamValue(TeamIdKey).Some? && ParseInt(ReadTeamValue(TeamIdKey).value) == Some(teamId)
      ensures ReadTeamValue(GameIdKey).Some? && ParseInt(ReadTeamValue(GameIdKey).value) == Some(gameId)
    {
      local := local[TeamIdKey := IntToString(teamId)];
      local := local[TeamNameKey := name];
      local := local[GameIdKey := IntToString(gameId)];
      session := session[TeamIdKey := IntToString(teamId)];
      session := session[TeamNameKey := name];
      session := session[GameIdKey := IntToString(gameId)];
      assert TeamIdKey != TeamNameKey && TeamIdKey != GameIdKey && TeamNameKey != GameIdKey;
      assert ReadTeamValue(TeamIdKey) == Some(IntToString(teamId));
      assert ReadTeamValue(GameIdKey) == Some(IntToString(gameId));
      ParseIntOfIntToString(teamId);
      ParseIntOfIntToString(gameId);
    }

    /** The question page's start: a team id found in either store is copied
        into the local store, together with the name and game id when those are
        non-empty; the session store is left alone. */
    method MigrateToLocal()
      modifies this
      ensures session == old(session)
      ensures var id := old(ReadTeamValue(TeamIdKey));
        var name := old(ReadTeamValue(TeamNameKey));
        var game := old(ReadTeamValue(GameIdKey));
        local == (if id.Some? && id.value != "" then
          var l1 := old(local)[TeamIdKey := id.value];
          var l2 := if name.Some? && name.value != "" then l1[TeamNameKey := name.value] else l1;
          if game.Some? && game.value != "" then l2[GameIdKey := game.value] else l2
        else old(local))
      ensures forall k :: k in TeamKeys() && old(ReadTeamValue(TeamIdKey)).Some? && old(ReadTeamValue(TeamIdKey)).value != "" ==>
        ReadTeamValue(k) == old(ReadTeamValue(k))
    {
      var teamId := ReadTeamValue(TeamIdKey);
      var teamName := ReadTeamValue(TeamNameKey);
      var storedGameId := ReadTeamValue(GameIdKey);
      if teamId.Some? && teamId.value != "" {
        local := local[TeamIdKey := teamId.value];
        if teamName.Some? && teamName.value != "" {
          local := local[TeamNameKey := teamName.value];
        }
        if storedGameId.Some? && storedGameId.value != "" {
          local := local[GameIdKey := storedGameId.value];
        }
      }
    }
  }
}
