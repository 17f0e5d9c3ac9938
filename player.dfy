/** A player: a name fixed at creation and the hand the game gives them. */
module Players {
  import Hands

  class Player {
    const name: string
    var hand: Hands.Hand?

    /** `Player(name)`: the player has no hand until the game sets one. */
    constructor (name: string)
      ensures this.name == name && hand == null
    {
      this.name := name;
      hand := null;
    }

    /** `setHand`: replace the hand; the name stays. */
    method SetHand(hand: Hands.Hand?)
      modifies this
      ensures this.hand == hand
    {
      this.hand := hand;
    }
  }
}
