/** The `App` component of `src/App.jsx` as an object: its state variables
    are the fields of `MemoryGame`, and each handler, timer callback and
    effect is a method that updates them in place. Every method is proved
    to move the object from `State()` to the session the matching function
    of `Game` computes, and every event keeps `Settled`, so the properties
    proved in `Game` hold of the object after any sequence of events. */
module App {
  import opened FisherYates
  import opened Deck
  import opened Game

  class MemoryGame {
    var cards: seq<Card>
    var first: Option<Card>
    var second: Option<Card>
    var disabled: bool
    var isAnimating: bool
    var moves: nat
    var score: nat
    var time: nat
    var running: bool
    var confettiShown: bool
    var mismatchTimers: seq<(string, string)>
    var choreography: Choreography
    ghost var celebrations: nat

    /** The fields as one value. */
    ghost function State(): Session
      reads this
    {
      Session(cards, first, second, disabled, isAnimating, moves, score, time,
              running, confettiShown, mismatchTimers, choreography, celebrations)
    }

    ghost predicate Valid()
      reads this
    {
      Settled(State())
    }

    /** Mounting the component: the initial state values, then `initGame`
        (the effect with no dependencies). */
    constructor (c: seq<nat>)
      requires ValidChoices(c, DECK_SIZE)
      ensures State() == Game.Initial(c)
      ensures Valid()
    {
      cards, first, second := [], None, None;
      disabled, isAnimating := false, false;
      moves, score, time := 0, 0, 0;
      running, confettiShown := false, false;
      mismatchTimers, choreography := [], Idle;
      celebrations := 0;
      new;
      InitGame(c);
      InitialSettled(c);
    }

    /** `initGame` */
    method InitGame(c: seq<nat>)
      requires ValidChoices(c, DECK_SIZE)
      modifies this
      ensures State() == Game.InitGame(old(State()), c)
    {
      var order := Shuffle(ICONS + ICONS, c);
      var deck := BuildDeck(order);
      ghost var s0 := State();
      first, second, disabled := None, None, false;
      moves, score, time, running, confettiShown, celebrations := 0, 0, 0, false, false, 0;
      cards := deck;
      assert State() == s0.(cards := deck, first := None, second := None, disabled := false,
                            moves := 0, score := 0, time := 0, running := false,
                            confettiShown := false, celebrations := 0);
    }

    /** `resetTurn` */
    method ResetTurn()
      modifies this
      ensures State() == Game.ResetTurn(old(State()))
    {
      first, second := None, None;
      disabled := false;
    }

    /** `handleFlip(card)` for the card at position `k`. */
    method HandleFlip(k: nat)
      requires k < |cards|
      modifies this
      ensures State() == Game.HandleFlip(old(State()), k)
    {
      if disabled || isAnimating {
        return;
      }
      var card := cards[k];
      if card.flipped || card.matched {
        running := true;
        return;
      }
      var flipped := UpdateWhere(cards, {card.id}, TurnUp);
      if first.None? {
        running, cards, first := true, flipped, Some(card);
      } else if second.None? {
        running, cards, second := true, flipped, Some(card);
      } else {
        running, cards := true, flipped;
      }
    }

    /** The comparison effect, which runs when the turn changes. */
    method CompareEffect()
      modifies this
      ensures State() == Game.CompareEffect(old(State()))
    {
      if first.Some? && second.Some? {
        var f, g := first.value, second.value;
        if f.icon == g.icon {
          var matched := UpdateWhere(cards, {f.id, g.id}, MarkMatched);
          cards, score, moves := matched, score + 1, moves + 1;
          ResetTurn();
        } else {
          disabled, moves, mismatchTimers := true, moves + 1, mismatchTimers + [(f.id, g.id)];
        }
      }
    }

    /** The completion effect, which runs when the deck changes; `fired`
        tells whether the celebration started. */
    method CompletionEffect() returns (fired: bool)
      modifies this
      ensures State() == Game.CompletionEffect(old(State()))
      ensures fired == Celebrates(old(State()))
    {
      fired := |cards| > 0 && AllMatched(cards) && !confettiShown;
      if fired {
        running, confettiShown, celebrations := false, true, celebrations + 1;
      }
    }

    /** A click on the card at position `k`, with the effects it triggers. */
    method SelectCard(k: nat) returns (celebrated: bool)
      requires k < |cards|
      modifies this
      ensures State() == Game.SelectCard(old(State()), k)
      ensures old(Valid()) ==> Valid()
      ensures celebrated <==> celebrations == old(celebrations) + 1
      ensures old(Valid()) && celebrated ==> Completed(cards) && !running && score == |ICONS|
    {
      ghost var s0 := State();
      var before, beforeFirst, beforeSecond := cards, first, second;
      HandleFlip(k);
      ghost var s1 := State();
      if first != beforeFirst || second != beforeSecond {
        CompareEffect();
      }
      assert State() == if s1.first != s0.first || s1.second != s0.second then Game.CompareEffect(s1) else s1;
      celebrated := false;
      if cards != before {
        celebrated := CompletionEffect();
      }
      assert State() == Game.SelectCard(s0, k);
      if old(Valid()) {
        SelectCardKeeps(s0, k);
      }
    }

    /** The oldest pending mismatch timeout fires. */
    method MismatchTimeout()
      requires mismatchTimers != []
      modifies this
      ensures State() == Game.MismatchTimeout(old(State()))
      ensures old(Valid()) ==> Valid()
    {
      ghost var s0 := State();
      var (a, b) := mismatchTimers[0];
      var turnedDown := UpdateWhere(cards, {a, b}, TurnDown);
      cards, mismatchTimers := turnedDown, mismatchTimers[1..];
      ResetTurn();
      var _ := CompletionEffect();
      assert State() == Game.MismatchTimeout(s0);
      if old(Valid()) {
        MismatchTimeoutKeeps(s0);
      }
    }

    /** One tick of the interval timer. */
    method Tick()
      modifies this
      ensures State() == Game.Tick(old(State()))
      ensures old(Valid()) ==> Valid()
    {
      ghost var s0 := State();
      if running {
        time := time + 1;
      }
      assert State() == Game.Tick(s0);
      if old(Valid()) {
        TickKeeps(s0);
      }
    }

    /** `restart` */
    method Restart(order: seq<nat>, deal: seq<nat>)
      requires ValidChoices(order, |cards|) && ValidChoices(deal, DECK_SIZE)
      modifies this
      ensures State() == Game.Restart(old(State()), order, deal)
      ensures old(Valid()) ==> Valid()
    {
      ghost var s0 := State();
      var gameCompleted := |cards| > 0 && AllMatched(cards);
      if gameCompleted && !isAnimating {
        var matchedCardIds := IdsWhere(cards, IsMatched);
        var shuffledIds := Shuffle(matchedCardIds, order);
        isAnimating, disabled, choreography := true, true, Unwinding(shuffledIds);
      } else if !isAnimating {
        InitGame(deal);
        var _ := CompletionEffect();
      }
      assert State() == Game.Restart(s0, order, deal);
      if old(Valid()) {
        RestartKeeps(s0, order, deal);
      }
    }

    /** The restart timeout for the next pending card. */
    method RestartStep()
      requires choreography.Unwinding? && choreography.pending != []
      modifies this
      ensures State() == Game.RestartStep(old(State()))
      ensures old(Valid()) ==> Valid()
    {
      ghost var s0 := State();
      var cardId := choreography.pending[0];
      var unwound := UpdateWhere(cards, {cardId}, Unwound);
      cards, choreography := unwound, Unwinding(choreography.pending[1..]);
      var _ := CompletionEffect();
      assert State() == Game.RestartStep(s0);
      if old(Valid()) {
        RestartStepKeeps(s0);
      }
    }

    /** The final restart timeout. */
    method RestartFinish(deal: seq<nat>)
      requires choreography == Unwinding([]) && ValidChoices(deal, DECK_SIZE)
      modifies this
      ensures State() == Game.RestartFinish(old(State()), deal)
      ensures old(Valid()) ==> Valid()
    {
      ghost var s0 := State();
      InitGame(deal);
      isAnimating, choreography := false, Idle;
      var _ := CompletionEffect();
      assert State() == Game.RestartFinish(s0, deal);
      if old(Valid()) {
        RestartFinishKeeps(s0, deal);
      }
    }

    /** `handleShuffle` */
    method HandleShuffle(c: seq<nat>)
      requires ValidChoices(c, |cards|)
      modifies this
      ensures State() == Game.HandleShuffle(old(State()), c)
      ensures old(Valid()) ==> Valid()
    {
      ghost var s0 := State();
      if isAnimating || disabled {
        return;
      }
      var flippedCardIds := IdsWhere(cards, IsFaceUp);
      if |flippedCardIds| > 0 {
        isAnimating, disabled, first, second := true, true, None, None;
        choreography := Settling(flippedCardIds);
      } else {
        var shuffled := Shuffle(cards, c);
        var normalized := NormalizeDeck(shuffled);
        cards, first, second := normalized, None, None;
        var _ := CompletionEffect();
      }
      assert State() == Game.HandleShuffle(s0, c);
      if old(Valid()) {
        HandleShuffleKeeps(s0, c);
      }
    }

    /** The shuffle timeout for the next pending card. */
    method ShuffleStep()
      requires choreography.Settling? && choreography.pending != []
      modifies this
      ensures State() == Game.ShuffleStep(old(State()))
      ensures old(Valid()) ==> Valid()
    {
      ghost var s0 := State();
      var cardId := choreography.pending[0];
      var turnedDown := UpdateWhere(cards, {cardId}, TurnDown);
      cards, choreography := turnedDown, Settling(choreography.pending[1..]);
      var _ := CompletionEffect();
      assert State() == Game.ShuffleStep(s0);
      if old(Valid()) {
        ShuffleStepKeeps(s0);
      }
    }

    /** The final shuffle timeout. */
    method ShuffleFinish(c: seq<nat>)
      requires choreography == Settling([]) && ValidChoices(c, |cards|)
      modifies this
      ensures State() == Game.ShuffleFinish(old(State()), c)
      ensures old(Valid()) ==> Valid()
    {
      ghost var s0 := State();
      var shuffled := Shuffle(cards, c);
      var normalized := NormalizeDeck(shuffled);
      cards, isAnimating, disabled, choreography := normalized, false, false, Idle;
      var _ := CompletionEffect();
      assert State() == Game.ShuffleFinish(s0, c);
      if old(Valid()) {
        ShuffleFinishKeeps(s0, c);
      }
    }
  }
}
