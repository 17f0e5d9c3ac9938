/**
 * The part of a card game every game shares: a deck, the players in the order they joined,
 * and the set of their names, which keeps two players from sharing a name.
 */
module Games {
  import Decks
  import Players

  type Player = Players.Player

  class Game {
    const deck: Decks.Deck
    var players: seq<Player>
    var playerNames: set<string>

    /** The name set holds exactly the players' names, and no name belongs to two players. */
    ghost predicate Valid()
      reads this
    {
      playerNames == (set p | p in players :: p.name)
      && forall i, j :: 0 <= i < j < |players| ==> players[i].name != players[j].name
    }

    /** `Game()`: no players, and a deck made with `Deck(true)`, so an empty one. */
    constructor ()
      ensures Valid() && players == [] && playerNames == {}
      ensures fresh(deck) && deck.cards == []
    {
      players := [];
      playerNames := {};
      deck := new Decks.Deck(true);
    }

    /**
     * `addPlayer`: a new player with this name joins at the end, unless the name is taken,
     * in which case nothing changes and the result is None (null).
     */
    method AddPlayer(name: string) returns (player: Players.Player?)
      requires Valid()
      modifies this
      ensures Valid()
      ensures player == null <==> name in old(playerNames)
      ensures player == null ==> players == old(players) && playerNames == old(playerNames)
      ensures player != null ==> (fresh(player) && player.name == name && player.hand == null
        && players == old(players) + [player] && playerNames == old(playerNames) + {name})
    {
      player := null;
      if name !in playerNames {
        player := new Players.Player(name);
        players := players + [player];
        playerNames := playerNames + {name};
      }
    }
  }
}
