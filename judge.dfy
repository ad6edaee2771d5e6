/** The outcome verdict, get_judgement in src/main.rs. */
module Judge {

  /**
   * get_judgement: from `[white, black]` disc counts, "DRAW" on equal
   * counts, "WHITE WON!" when white has more, "BLACK WON" otherwise.
   */
  function Judgement(stones: seq<nat>): (r: string)
    requires |stones| == 2
    ensures r == "DRAW" <==> stones[0] == stones[1]
    ensures r == "WHITE WON!" <==> stones[0] > stones[1]
    ensures r == "BLACK WON" <==> stones[0] < stones[1]
  {
    var white, black := stones[0], stones[1];
    if white == black then "DRAW"
    else if white > black then "WHITE WON!"
    else "BLACK WON"
  }

  /** The verdict with the two colours exchanged. */
  function Mirrored(verdict: string): string {
    if verdict == "WHITE WON!" then "BLACK WON"
    else if verdict == "BLACK WON" then "WHITE WON!"
    else verdict
  }

  /** Swapping the two counts swaps the winner and leaves a draw a draw. */
  lemma JudgementSwap(white: nat, black: nat)
    ensures Judgement([black, white]) == Mirrored(Judgement([white, black]))
    ensures Judgement([white, black]) == "DRAW" <==> Judgement([black, white]) == "DRAW"
  {
  }
}
