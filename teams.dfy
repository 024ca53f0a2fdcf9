/**
 * The lineup board: seven fixed positions, a name per position kept in a
 * map that is stored on every change, and the name shown under each shirt.
 */
module Teams {
  import opened JsText

  /**
   * A place on the pitch; `positionLabel` is the shirt caption and `x`, `y`
   * the CSS offsets as written.
   */
  datatype Position = Position(id: string, positionLabel: string, x: string, y: string)

  /** The `positions` table. */
  const Positions: seq<Position> := [
    Position("gk", "GK", "50%", "85%"),
    Position("zg1", "ZG", "30%", "65%"),
    Position("zg2", "ZG", "70%", "65%"),
    Position("ala1", "ALA", "15%", "40%"),
    Position("ala2", "ALA", "85%", "40%"),
    Position("pvo", "PVO", "50%", "40%"),
    Position("fxo", "FXO", "50%", "15%")
  ]

  /** The table has seven places and no two share an id. */
  lemma PositionsTable()
    ensures |Positions| == 7
    ensures forall i, j :: 0 <= i < j < |Positions| ==> Positions[i].id != Positions[j].id
  {
  }

  /** The text under a shirt: `players[id] || 'Jogador'`. */
  function DisplayName(players: map<string, string>, id: string): (r: string)
    ensures r != ""
    ensures id in players && players[id] != "" ==> r == players[id]
    ensures id !in players || players[id] == "" ==> r == "Jogador"
  {
    if id in players && players[id] != "" then players[id] else "Jogador"
  }

  /** The value of the name input while editing: `players[id] || ''`. */
  function EditValue(players: map<string, string>, id: string): (r: string)
    ensures id in players ==> r == players[id]
    ensures id !in players ==> r == ""
  {
    if id in players then players[id] else ""
  }

  /**
   * After a name change the changed place shows the new name, or the
   * placeholder when it is empty; every other place shows what it showed.
   */
  lemma DisplayAfterChange(players: map<string, string>, id: string, name: string, other: string)
    ensures DisplayName(players[id := name], id) == (if name == "" then "Jogador" else name)
    ensures other != id ==> DisplayName(players[id := name], other) == DisplayName(players, other)
  {
  }

  class Lineup {
    var players: map<string, string>
    var editingPlayer: Option<string>

    /** The `useState` initial values. */
    constructor ()
      ensures players == map[] && editingPlayer == None
    {
      players := map[];
      editingPlayer := None;
    }

    /**
     * `loadPlayers`: the map read back from storage replaces the state when
     * there is one; storage and JSON parsing are outside the model.
     */
    method LoadPlayers(saved: Option<map<string, string>>)
      modifies this
      ensures players == (if saved.Some? then saved.value else old(players))
      ensures editingPlayer == old(editingPlayer)
    {
      if saved.Some? {
        players := saved.value;
      }
    }

    /** Pressing a name starts editing that place. */
    method StartEditing(id: string)
      modifies this
      ensures editingPlayer == Some(id) && players == old(players)
    {
      editingPlayer := Some(id);
    }

    /** Leaving the input stops editing. */
    method StopEditing()
      modifies this
      ensures editingPlayer == None && players == old(players)
    {
      editingPlayer := None;
    }

    /**
     * `handlePlayerNameChange`: the place's name is replaced, every other
     * place keeps its name, editing stops, and the map handed to storage is
     * the new state.
     */
    method HandlePlayerNameChange(id: string, name: string) returns (toSave: map<string, string>)
      modifies this
      ensures players == old(players)[id := name]
      ensures id in players && players[id] == name
      ensures forall other :: other in old(players) && other != id ==> other in players && players[other] == old(players)[other]
      ensures players.Keys == old(players).Keys + {id}
      ensures editingPlayer == None
      ensures toSave == players
    {
      var newPlayers := players[id := name];
      players := newPlayers;
      toSave := newPlayers;
      editingPlayer := None;
    }
  }
}
