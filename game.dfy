/** The turn state machine of the `App` component of `src/App.jsx`, on
    values: a `Session` holds every state variable, and each handler, timer
    callback and effect is a function from the session before to the
    session after, applied atomically. A scheduled timer is part of the
    state (the queue of pending mismatch timeouts, the steps a choreography
    still has to run) and fires when its step is applied. */
module Game {
  import opened FisherYates
  import opened Deck

  datatype Option<T> = None | Some(value: T)

  /** The timeouts a restart or shuffle choreography still has to run:
      one step per pending card id, in order; once the list is empty the
      final step is due. */
  datatype Choreography =
    | Idle
    | Unwinding(pending: seq<string>)   // restart of a completed board
    | Settling(pending: seq<string>)    // shuffle with face-up unmatched cards

  /** The state of one session. `confettiShown` is `confettiShownRef`;
      `mismatchTimers` holds the pending 800 ms timeouts, oldest first, each
      with the ids of the two cards it captured; `celebrations` counts how
      often the completion celebration fired since the last `initGame`. */
  datatype Session = Session(
    cards: seq<Card>,
    first: Option<Card>,
    second: Option<Card>,
    disabled: bool,
    isAnimating: bool,
    moves: nat,
    score: nat,
    time: nat,
    running: bool,
    confettiShown: bool,
    mismatchTimers: seq<(string, string)>,
    choreography: Choreography,
    celebrations: nat)

  // ---------------------------------------------------------------------
  // The invariant.

  /** Some card with this id is face up and unmatched. */
  ghost predicate HasFaceUp(d: seq<Card>, id: string) {
    exists i :: 0 <= i < |d| && d[i].id == id && IsFaceUp(d[i])
  }

  /** The turn: `second` only after `first`, two different cards, each
      still face up and unmatched in the deck. */
  ghost predicate SelectionOk(d: seq<Card>, first: Option<Card>, second: Option<Card>) {
    && (second.Some? ==> first.Some?)
    && (first.Some? ==> HasFaceUp(d, first.value.id))
    && (second.Some? ==> HasFaceUp(d, second.value.id))
    && (first.Some? && second.Some? ==> first.value.id != second.value.id)
  }

  /** What a running choreography has done so far. While unwinding, every
      card whose step has run is face down and unmatched; while settling,
      every face-up unmatched card still has its step to come. */
  ghost predicate ChoreographyOk(d: seq<Card>, ch: Choreography) {
    match ch
    case Idle => true
    case Unwinding(p) =>
      forall i :: 0 <= i < |d| ==> d[i].id in p || (!d[i].flipped && !d[i].matched)
    case Settling(p) =>
      forall i :: 0 <= i < |d| && IsFaceUp(d[i]) ==> d[i].id in p
  }

  /** What every step keeps: a good deck; the animation flag set exactly
      while a choreography runs, and no turn in progress then; the score
      half the number of matched cards (except while a restart unwinds
      them); no more points than moves; and at most one celebration per
      game, recorded by the guard. */
  ghost predicate Inv(s: Session) {
    && DeckOk(s.cards)
    && (s.isAnimating <==> !s.choreography.Idle?)
    && SelectionOk(s.cards, s.first, s.second)
    && (!s.choreography.Idle? ==> s.first.None? && s.second.None?)
    && ChoreographyOk(s.cards, s.choreography)
    && (!s.choreography.Unwinding? ==> CountMatched(s.cards) == 2 * s.score)
    && s.score <= s.moves
    && s.celebrations == (if s.confettiShown then 1 else 0)
  }

  /** The invariant between events: in addition, a completed deck has been
      celebrated, and while two chosen cards wait to be turned back input
      is locked. */
  ghost predicate Settled(s: Session) {
    && Inv(s)
    && (Completed(s.cards) ==> s.confettiShown)
    && (s.first.Some? && s.second.Some? ==> s.disabled)
  }

  // ---------------------------------------------------------------------
  // Transitions.

  /** `initGame`: a deck dealt from two copies of `ICONS` shuffled with the
      draws `c`, every counter and the completion guard reset. The animation
      flag and pending timers are left alone. */
  function InitGame(s: Session, c: seq<nat>): Session
    requires ValidChoices(c, DECK_SIZE)
  {
    s.(cards := BuildDeck(Shuffled(ICONS + ICONS, c, DECK_SIZE)),
       first := None, second := None, disabled := false,
       moves := 0, score := 0, time := 0, running := false,
       confettiShown := false, celebrations := 0)
  }

  /** The session when the component mounts: the `useState` initial values,
      then `initGame`. */
  function Initial(c: seq<nat>): Session
    requires ValidChoices(c, DECK_SIZE)
  {
    InitGame(Session([], None, None, false, false, 0, 0, 0, false, false, [], Idle, 0), c)
  }

  /** `resetTurn` */
  function ResetTurn(s: Session): Session {
    s.(first := None, second := None, disabled := false)
  }

  /** `handleFlip(card)` for the card at position `k`. */
  function HandleFlip(s: Session, k: nat): Session
    requires k < |s.cards|
  {
    if s.disabled || s.isAnimating then s
    else
      var card := s.cards[k];
      if card.flipped || card.matched then s.(running := true)
      else
        s.(running := true,
           cards := UpdateWhere(s.cards, {card.id}, TurnUp),
           first := if s.first.None? then Some(card) else s.first,
           second := if s.first.Some? && s.second.None? then Some(card) else s.second)
  }

  /** The comparison effect (lines 35-58), which runs when the turn changes. */
  function CompareEffect(s: Session): Session {
    if s.first.Some? && s.second.Some? then
      var f, g := s.first.value, s.second.value;
      if f.icon == g.icon then
        ResetTurn(s.(cards := UpdateWhere(s.cards, {f.id, g.id}, MarkMatched),
                     score := s.score + 1, moves := s.moves + 1))
      else
        s.(disabled := true, moves := s.moves + 1,
           mismatchTimers := s.mismatchTimers + [(f.id, g.id)])
    else s
  }

  /** The condition of the effect on `cards`: complete and not yet shown. */
  predicate Celebrates(s: Session) {
    Completed(s.cards) && !s.confettiShown
  }

  /** The completion effect (lines 69-72), which runs when the deck changes;
      the confetti animation itself is left out. */
  function CompletionEffect(s: Session): Session {
    if Celebrates(s) then
      s.(running := false, confettiShown := true, celebrations := s.celebrations + 1)
    else s
  }

  /** A click on the card at position `k`: `handleFlip`, then the comparison
      effect if the selection changed, then the completion effect if the
      deck changed. */
  function SelectCard(s: Session, k: nat): Session
    requires k < |s.cards|
  {
    var flipped := HandleFlip(s, k);
    var compared :=
      if flipped.first != s.first || flipped.second != s.second then CompareEffect(flipped)
      else flipped;
    if compared.cards != s.cards then CompletionEffect(compared) else compared
  }

  /** The oldest pending mismatch timeout fires: the two cards it captured
      are turned face down and the turn is reset, whatever it is now. */
  function MismatchTimeout(s: Session): Session
    requires s.mismatchTimers != []
  {
    var (a, b) := s.mismatchTimers[0];
    CompletionEffect(ResetTurn(s.(cards := UpdateWhere(s.cards, {a, b}, TurnDown),
                                  mismatchTimers := s.mismatchTimers[1..])))
  }

  /** The one-second interval timer, which runs while `running`. */
  function Tick(s: Session): Session {
    if s.running then s.(time := s.time + 1) else s
  }

  /** `restart`, with the draws `order` for the unwinding order and `deal`
      for a new deck. */
  function Restart(s: Session, order: seq<nat>, deal: seq<nat>): Session
    requires ValidChoices(order, |s.cards|) && ValidChoices(deal, DECK_SIZE)
  {
    if Completed(s.cards) && !s.isAnimating then
      var ids := IdsWhere(s.cards, IsMatched);
      s.(isAnimating := true, disabled := true,
         choreography := Unwinding(Shuffled(ids, order, |ids|)))
    else if !s.isAnimating then CompletionEffect(InitGame(s, deal))
    else s
  }

  /** One step of the restart choreography: the next card is turned face
      down and unmatched. */
  function RestartStep(s: Session): Session
    requires s.choreography.Unwinding? && s.choreography.pending != []
  {
    var p := s.choreography.pending;
    CompletionEffect(s.(cards := UpdateWhere(s.cards, {p[0]}, Unwound),
                        choreography := Unwinding(p[1..])))
  }

  /** The final step of the restart choreography: a new game, input unlocked. */
  function RestartFinish(s: Session, deal: seq<nat>): Session
    requires s.choreography == Unwinding([]) && ValidChoices(deal, DECK_SIZE)
  {
    CompletionEffect(InitGame(s, deal).(isAnimating := false, choreography := Idle))
  }

  /** `handleShuffle`, with the draws `c` for the permutation. */
  function HandleShuffle(s: Session, c: seq<nat>): Session
    requires ValidChoices(c, |s.cards|)
  {
    if s.isAnimating || s.disabled then s
    else
      var faceUp := IdsWhere(s.cards, IsFaceUp);
      if |faceUp| > 0 then
        s.(isAnimating := true, disabled := true, first := None, second := None,
           choreography := Settling(faceUp))
      else
        CompletionEffect(s.(cards := ReshuffledDeck(s.cards, c), first := None, second := None))
  }

  /** One step of the shuffle choreography: the next card is turned face down. */
  function ShuffleStep(s: Session): Session
    requires s.choreography.Settling? && s.choreography.pending != []
  {
    var p := s.choreography.pending;
    CompletionEffect(s.(cards := UpdateWhere(s.cards, {p[0]}, TurnDown),
                        choreography := Settling(p[1..])))
  }

  /** The final step of the shuffle choreography: the deck is reshuffled
      with the draws `c` and input unlocked. */
  function ShuffleFinish(s: Session, c: seq<nat>): Session
    requires s.choreography == Settling([]) && ValidChoices(c, |s.cards|)
  {
    CompletionEffect(s.(cards := ReshuffledDeck(s.cards, c), isAnimating := false,
                        disabled := false, choreography := Idle))
  }

  // ---------------------------------------------------------------------
  // Properties.

  /** The game starts in a good state with a fresh, unplayed deck. */
  lemma InitialSettled(c: seq<nat>)
    requires ValidChoices(c, DECK_SIZE)
    ensures Settled(Initial(c))
    ensures forall i :: 0 <= i < |Initial(c).cards| ==> !Initial(c).cards[i].flipped && !Initial(c).cards[i].matched
  {
    InitGameFresh(Session([], None, None, false, false, 0, 0, 0, false, false, [], Idle, 0), c);
  }

  /** `initGame` deals a good deck of sixteen face-down unmatched cards in
      which each icon appears twice, and zeroes every counter. */
  lemma InitGameFresh(s: Session, c: seq<nat>)
    requires ValidChoices(c, DECK_SIZE)
    ensures var t := InitGame(s, c);
      && DeckOk(t.cards) && !Completed(t.cards) && CountMatched(t.cards) == 0
      && (forall i :: 0 <= i < |t.cards| ==> !t.cards[i].flipped && !t.cards[i].matched)
      && (forall x :: multiset(IconsOf(t.cards))[x] == if x in ICONS then 2 else 0)
      && t.moves == 0 && t.score == 0 && t.time == 0 && !t.running && !t.disabled
      && t.first.None? && t.second.None? && !t.confettiShown
      && (s.choreography.Idle? && !s.isAnimating ==> Settled(t))
  {
    var order := Shuffled(ICONS + ICONS, c, DECK_SIZE);
    ShuffledPermutes(ICONS + ICONS, c, DECK_SIZE);
    FreshDeck(order);
    var d := BuildDeck(order);
    NoneMatchedCount(d);
    forall x
      ensures multiset(IconsOf(d))[x] == if x in ICONS then 2 else 0
    {
      EachIconTwice(d, x);
    }
  }

  /** A click on locked input changes nothing at all. */
  lemma HandleFlipLocked(s: Session, k: nat)
    requires k < |s.cards| && (s.disabled || s.isAnimating)
    ensures HandleFlip(s, k) == s
  {
  }

  /** While two chosen cards wait to be turned back a click changes nothing:
      a third card is refused. */
  lemma HandleFlipPairWaiting(s: Session, k: nat)
    requires Settled(s) && k < |s.cards| && s.first.Some? && s.second.Some?
    ensures HandleFlip(s, k) == s
  {
  }

  /** A click on a card already face up or matched only starts the clock. */
  lemma HandleFlipIneligible(s: Session, k: nat)
    requires k < |s.cards| && !s.disabled && !s.isAnimating
    requires s.cards[k].flipped || s.cards[k].matched
    ensures HandleFlip(s, k) == s.(running := true)
  {
  }

  /** A click on a face-down unmatched card turns that card up and no other,
      and records it as `first`, or as `second` when `first` is taken; the
      invariant is kept, and the session stays settled unless the click
      chose the second card, which the comparison then resolves. */
  lemma HandleFlipKeeps(s: Session, k: nat)
    requires Settled(s) && k < |s.cards|
    ensures Inv(HandleFlip(s, k))
    ensures Completed(HandleFlip(s, k).cards) ==> HandleFlip(s, k).confettiShown
    ensures HandleFlip(s, k).second == s.second ==> Settled(HandleFlip(s, k))
    ensures HandleFlip(s, k).disabled == s.disabled
    ensures !s.disabled && !s.isAnimating && !s.cards[k].flipped && !s.cards[k].matched ==>
              var t := HandleFlip(s, k);
              && t.cards == s.cards[k := s.cards[k].(flipped := true)]
              && t.first == (if s.first.None? then Some(s.cards[k]) else s.first)
              && t.second == (if s.first.Some? && s.second.None? then Some(s.cards[k]) else s.second)
              && t.running
  {
    if s.disabled || s.isAnimating {
    } else if s.cards[k].flipped || s.cards[k].matched {
      assert HandleFlip(s, k) == s.(running := true);
    } else {
      FlipEligible(s, k);
    }
  }

  /** The eligible branch of `handleFlip`. */
  lemma FlipEligible(s: Session, k: nat)
    requires Inv(s) && k < |s.cards| && !s.disabled && !s.isAnimating
    requires !s.cards[k].flipped && !s.cards[k].matched
    ensures var t := HandleFlip(s, k);
      && Inv(t)
      && t.cards == s.cards[k := s.cards[k].(flipped := true)]
      && t.first == (if s.first.None? then Some(s.cards[k]) else s.first)
      && t.second == (if s.first.Some? && s.second.None? then Some(s.cards[k]) else s.second)
      && t.running && t.disabled == s.disabled && t.confettiShown == s.confettiShown
      && Completed(t.cards) == Completed(s.cards)
  {
    var d, card := s.cards, s.cards[k];
    var e := d[k := TurnUp(card)];
    UpdateOne(d, k, TurnUp);
    UpdateKeepsMatches(d, {card.id}, TurnUp);
    SameLayoutKeepsDeckOk(d, e);
    FlipSelection(d, k, s.first, s.second);
    var t := s.(running := true, cards := e,
                first := if s.first.None? then Some(card) else s.first,
                second := if s.first.Some? && s.second.None? then Some(card) else s.second);
    assert HandleFlip(s, k) == t;
    IdleInv(t);
  }

  /** Turning up the face-down unmatched card at `k` and recording it as
      `first`, or as `second` when `first` is taken, keeps a good turn. */
  lemma FlipSelection(d: seq<Card>, k: nat, first: Option<Card>, second: Option<Card>)
    requires DeckOk(d) && k < |d| && !d[k].flipped && !d[k].matched
    requires SelectionOk(d, first, second)
    ensures SelectionOk(d[k := TurnUp(d[k])],
                        if first.None? then Some(d[k]) else first,
                        if first.Some? && second.None? then Some(d[k]) else second)
  {
    var e := d[k := TurnUp(d[k])];
    assert e[k].id == d[k].id && IsFaceUp(e[k]);
    if first.Some? {
      var i := PickFaceUp(d, first.value.id);
      assert i != k && e[i] == d[i];
    }
    if second.Some? {
      var i := PickFaceUp(d, second.value.id);
      assert i != k && e[i] == d[i];
    }
  }

  /** Comparing two chosen cards counts one move whatever the outcome. A
      match marks exactly those two cards matched (two more matched cards),
      scores a point and ends the turn; a mismatch keeps input locked and
      schedules one timeout for that pair. Nothing happens with fewer than
      two chosen. */
  lemma CompareEffectKeeps(s: Session)
    requires Inv(s)
    ensures Inv(CompareEffect(s))
    ensures s.first.None? || s.second.None? ==> CompareEffect(s) == s
    ensures s.first.Some? && s.second.Some? ==>
              var t := CompareEffect(s);
              && t.moves == s.moves + 1
              && t.confettiShown == s.confettiShown && t.celebrations == s.celebrations
              && (s.first.value.icon == s.second.value.icon ==>
                    && PairMarked(s.cards, t.cards, s.first.value.id, s.second.value.id)
                    && CountMatched(t.cards) == CountMatched(s.cards) + 2
                    && t.score == s.score + 1
                    && t.first.None? && t.second.None? && !t.disabled)
              && (s.first.value.icon != s.second.value.icon ==>
                    && t.cards == s.cards && t.score == s.score && t.disabled
                    && t.mismatchTimers == s.mismatchTimers + [(s.first.value.id, s.second.value.id)])
  {
    if s.first.Some? && s.second.Some? && s.first.value.icon == s.second.value.icon {
      MatchKeeps(s);
    }
  }

  /** The match branch of the comparison: exactly the two chosen cards
      become matched. */
  lemma MatchKeeps(s: Session)
    requires Inv(s) && s.first.Some? && s.second.Some?
    requires s.first.value.icon == s.second.value.icon
    ensures Inv(CompareEffect(s))
    ensures PairMarked(s.cards, CompareEffect(s).cards, s.first.value.id, s.second.value.id)
    ensures CountMatched(CompareEffect(s).cards) == CountMatched(s.cards) + 2
  {
    var d, f, g := s.cards, s.first.value, s.second.value;
    MatchedPair(d, f.id, g.id);
    assert s.choreography.Idle?;
    IdleInv(CompareEffect(s));
  }

  /** Marking two different face-up unmatched cards matched by their ids
      marks exactly those two, keeps the deck good and adds two matched
      cards. */
  lemma MatchedPair(d: seq<Card>, a: string, b: string)
    requires DeckOk(d) && HasFaceUp(d, a) && HasFaceUp(d, b) && a != b
    ensures PairMarked(d, UpdateWhere(d, {a, b}, MarkMatched), a, b)
    ensures DeckOk(UpdateWhere(d, {a, b}, MarkMatched))
    ensures CountMatched(UpdateWhere(d, {a, b}, MarkMatched)) == CountMatched(d) + 2
  {
    var i := PickFaceUp(d, a);
    var j := PickFaceUp(d, b);
    MarkPairCount(d, i, j);
    SameLayoutKeepsDeckOk(d, UpdateWhere(d, {a, b}, MarkMatched));
  }

  /** A card witnessing `HasFaceUp`. */
  lemma PickFaceUp(d: seq<Card>, id: string) returns (i: nat)
    requires HasFaceUp(d, id)
    ensures i < |d| && d[i].id == id && IsFaceUp(d[i])
  {
    i :| 0 <= i < |d| && d[i].id == id && IsFaceUp(d[i]);
  }

  /** With no choreography the invariant asks only for a good deck, a good
      turn and consistent counters. */
  lemma IdleInv(t: Session)
    requires DeckOk(t.cards) && t.choreography.Idle? && !t.isAnimating
    requires SelectionOk(t.cards, t.first, t.second)
    requires CountMatched(t.cards) == 2 * t.score && t.score <= t.moves
    requires t.celebrations == (if t.confettiShown then 1 else 0)
    ensures Inv(t)
  {
  }

  /** The completion effect fires at most once per game: only when the deck
      is complete and the guard is clear; it then stops the clock and sets
      the guard, so a later check does nothing until `initGame` clears it. */
  lemma CompletionEffectSettles(s: Session)
    requires Inv(s) && (s.first.Some? && s.second.Some? ==> s.disabled)
    ensures Settled(CompletionEffect(s))
    ensures Celebrates(s) ==>
              CompletionEffect(s) == s.(running := false, confettiShown := true, celebrations := 1)
    ensures !Celebrates(s) ==> CompletionEffect(s) == s
    ensures CompletionEffect(CompletionEffect(s)) == CompletionEffect(s)
  {
  }

  /** A click keeps the invariant; moves and score grow by at most one;
      a click completes the game at most once, and only with every pair
      found. */
  lemma SelectCardKeeps(s: Session, k: nat)
    requires Settled(s) && k < |s.cards|
    ensures var t := SelectCard(s, k);
      && Settled(t)
      && s.moves <= t.moves <= s.moves + 1
      && s.score <= t.score <= s.score + 1
      && (s.confettiShown ==> t.confettiShown && t.celebrations == s.celebrations)
      && (t.celebrations > s.celebrations ==> Completed(t.cards) && !t.running && t.score == |ICONS|)
  {
    var flipped := HandleFlip(s, k);
    HandleFlipKeeps(s, k);
    var compared :=
      if flipped.first != s.first || flipped.second != s.second then CompareEffect(flipped)
      else flipped;
    CompareEffectKeeps(flipped);
    if compared.cards != s.cards {
      CompletionEffectSettles(compared);
      var t := CompletionEffect(compared);
      if t.celebrations > s.celebrations {
        CountMatchedAll(t.cards);
      }
    }
  }

  /** A mismatch timeout turns face down only the cards with the two ids it
      captured and resets the turn; it keeps the invariant, every matched
      flag and the completion state. */
  lemma MismatchTimeoutKeeps(s: Session)
    requires Settled(s) && s.mismatchTimers != []
    ensures var t := MismatchTimeout(s);
      && Settled(t)
      && t.cards == UpdateWhere(s.cards, {s.mismatchTimers[0].0, s.mismatchTimers[0].1}, TurnDown)
      && t.first.None? && t.second.None? && !t.disabled
      && t.mismatchTimers == s.mismatchTimers[1..]
      && t.moves == s.moves && t.score == s.score && t.confettiShown == s.confettiShown
  {
    var (a, b) := s.mismatchTimers[0];
    var d := s.cards;
    var e := UpdateWhere(d, {a, b}, TurnDown);
    UpdateKeepsMatches(d, {a, b}, TurnDown);
    SameLayoutKeepsDeckOk(d, e);
    TurnDownKeepsChoreography(d, {a, b}, s.choreography);
    var u := ResetTurn(s.(cards := e, mismatchTimers := s.mismatchTimers[1..]));
    TurnOverInv(s, e, s.mismatchTimers[1..]);
    CompletionEffectSettles(u);
  }

  /** Ending the turn with a deck that is still good, still agrees with the
      choreography and has as many matched cards keeps the invariant. */
  lemma TurnOverInv(s: Session, e: seq<Card>, timers: seq<(string, string)>)
    requires Inv(s) && DeckOk(e) && ChoreographyOk(e, s.choreography)
    requires CountMatched(e) == CountMatched(s.cards)
    ensures Inv(ResetTurn(s.(cards := e, mismatchTimers := timers)))
  {
  }

  /** Turning cards face down keeps what any choreography has done. */
  lemma TurnDownKeepsChoreography(d: seq<Card>, ids: set<string>, ch: Choreography)
    requires ChoreographyOk(d, ch)
    ensures ChoreographyOk(UpdateWhere(d, ids, TurnDown), ch)
  {
  }

  /** The interval timer counts only while the clock runs. */
  lemma TickKeeps(s: Session)
    requires Settled(s)
    ensures Settled(Tick(s))
    ensures Tick(s).time == if s.running then s.time + 1 else s.time
    ensures Tick(s).moves == s.moves && Tick(s).score == s.score
    ensures Tick(s).confettiShown == s.confettiShown
  {
  }

  /** On a completed deck no card is face up and unmatched, so no turn is
      in progress. */
  lemma CompletedNoTurn(s: Session)
    requires Inv(s) && Completed(s.cards)
    ensures s.first.None? && s.second.None?
  {
    forall id
      ensures !HasFaceUp(s.cards, id)
    {
    }
  }

  /** `restart` is ignored during a choreography. On a completed deck it
      locks input and schedules every card to be unwound, in an order that
      is a permutation of the deck's ids; on any other deck it is
      `initGame`. The invariant is kept. */
  lemma RestartKeeps(s: Session, order: seq<nat>, deal: seq<nat>)
    requires Settled(s) && ValidChoices(order, |s.cards|) && ValidChoices(deal, DECK_SIZE)
    ensures var t := Restart(s, order, deal);
      && Settled(t)
      && (s.isAnimating ==> t == s)
      && (!s.isAnimating && Completed(s.cards) ==>
            && t.choreography.Unwinding? && t.isAnimating && t.disabled && t.cards == s.cards
            && t.moves == s.moves && t.score == s.score
            && multiset(t.choreography.pending) == multiset(IdsOf(s.cards)))
      && (!s.isAnimating && !Completed(s.cards) ==> t == InitGame(s, deal))
  {
    if Completed(s.cards) && !s.isAnimating {
      var d := s.cards;
      var ids := IdsWhere(d, IsMatched);
      AllMatchedIds(d);
      var p := Shuffled(ids, order, |ids|);
      ShuffledPermutes(ids, order, |ids|);
      CompletedNoTurn(s);
      forall i | 0 <= i < |d|
        ensures d[i].id in p
      {
        assert IdsOf(d)[i] in multiset(ids);
      }
    } else if !s.isAnimating {
      InitGameFresh(s, deal);
      CompletionEffectSettles(InitGame(s, deal));
    }
  }

  /** A restart step unwinds the card with the next pending id and keeps the
      invariant. */
  lemma RestartStepKeeps(s: Session)
    requires Settled(s) && s.choreography.Unwinding? && s.choreography.pending != []
    ensures var t := RestartStep(s);
      && Settled(t)
      && t.cards == UpdateWhere(s.cards, {s.choreography.pending[0]}, Unwound)
      && t.choreography == Unwinding(s.choreography.pending[1..])
      && t.score == s.score && t.moves == s.moves && t.confettiShown == s.confettiShown
  {
    var d, p := s.cards, s.choreography.pending;
    var e := UpdateWhere(d, {p[0]}, Unwound);
    SameLayoutKeepsDeckOk(d, e);
    UnwindingStep(d, p);
    var u := s.(cards := e, choreography := Unwinding(p[1..]));
    ChoreographyStepInv(s, e, Unwinding(p[1..]));
    UnwoundNotCompleted(d, p[0]);
    CompletionEffectSettles(u);
  }

  /** After a restart step every card whose id has left the pending list
      is unwound. */
  lemma UnwindingStep(d: seq<Card>, p: seq<string>)
    requires p != [] && ChoreographyOk(d, Unwinding(p))
    ensures ChoreographyOk(UpdateWhere(d, {p[0]}, Unwound), Unwinding(p[1..]))
  {
    var e := UpdateWhere(d, {p[0]}, Unwound);
    forall i | 0 <= i < |d|
      ensures e[i].id in p[1..] || (!e[i].flipped && !e[i].matched)
    {
      if d[i].id != p[0] {
        assert d[i].id in p ==> d[i].id in p[1..] by {
          assert p == [p[0]] + p[1..];
        }
      }
    }
  }

  /** An unwound card makes a deck incomplete, so only a complete deck can
      still be complete after an unwinding step. */
  lemma UnwoundNotCompleted(d: seq<Card>, id: string)
    ensures Completed(UpdateWhere(d, {id}, Unwound)) ==> Completed(d)
  {
  }

  /** A step of a running choreography that keeps the deck good, keeps what
      the choreography has done and, outside a restart, the count of
      matched cards, keeps the invariant. */
  lemma ChoreographyStepInv(s: Session, e: seq<Card>, ch: Choreography)
    requires Inv(s) && !s.choreography.Idle? && !ch.Idle?
    requires DeckOk(e) && ChoreographyOk(e, ch)
    requires !ch.Unwinding? ==> CountMatched(e) == 2 * s.score
    ensures Inv(s.(cards := e, choreography := ch))
  {
  }

  /** When the final restart step is due every card has been unwound; it
      deals a new game with all counters zero and input unlocked. */
  lemma RestartFinishKeeps(s: Session, deal: seq<nat>)
    requires Settled(s) && s.choreography == Unwinding([]) && ValidChoices(deal, DECK_SIZE)
    ensures forall i :: 0 <= i < |s.cards| ==> !s.cards[i].flipped && !s.cards[i].matched
    ensures var t := RestartFinish(s, deal);
      && Settled(t)
      && t == InitGame(s, deal).(isAnimating := false, choreography := Idle)
  {
    var u := InitGame(s, deal).(isAnimating := false, choreography := Idle);
    InitGameFresh(s, deal);
    IdleInv(u);
    CompletionEffectSettles(u);
  }

  /** `handleShuffle` is ignored while input is locked. With face-up
      unmatched cards it clears the turn, locks input and schedules exactly
      those cards to settle; otherwise it reshuffles at once. The invariant
      is kept. */
  lemma HandleShuffleKeeps(s: Session, c: seq<nat>)
    requires Settled(s) && ValidChoices(c, |s.cards|)
    ensures var t := HandleShuffle(s, c);
      && Settled(t)
      && (s.isAnimating || s.disabled ==> t == s)
      && t.moves == s.moves && t.score == s.score && t.confettiShown == s.confettiShown
      && (!s.isAnimating && !s.disabled ==> t.first.None? && t.second.None?)
      && (!s.isAnimating && !s.disabled && IdsWhere(s.cards, IsFaceUp) != [] ==>
            && t.choreography == Settling(IdsWhere(s.cards, IsFaceUp)) && t.isAnimating && t.disabled
            && t.cards == s.cards)
      && (!s.isAnimating && !s.disabled && IdsWhere(s.cards, IsFaceUp) == [] ==>
            t.cards == ReshuffledDeck(s.cards, c))
  {
    if s.isAnimating || s.disabled {
    } else if IdsWhere(s.cards, IsFaceUp) != [] {
      SettleStart(s);
      assert HandleShuffle(s, c) == s.(isAnimating := true, disabled := true, first := None,
                                       second := None, choreography := Settling(IdsWhere(s.cards, IsFaceUp)));
    } else {
      ReshuffleKeeps(s.cards, c);
      var u := s.(cards := ReshuffledDeck(s.cards, c), first := None, second := None);
      IdleInv(u);
      CompletionEffectSettles(u);
      assert HandleShuffle(s, c) == CompletionEffect(u);
    }
  }

  /** Starting the settling choreography over the face-up unmatched cards
      keeps the session settled. */
  lemma SettleStart(s: Session)
    requires Settled(s) && !s.isAnimating
    ensures Settled(s.(isAnimating := true, disabled := true, first := None, second := None,
                       choreography := Settling(IdsWhere(s.cards, IsFaceUp))))
  {
  }

  /** A shuffle step turns down the card with the next pending id and keeps
      the invariant and every matched flag. */
  lemma ShuffleStepKeeps(s: Session)
    requires Settled(s) && s.choreography.Settling? && s.choreography.pending != []
    ensures var t := ShuffleStep(s);
      && Settled(t)
      && t.cards == UpdateWhere(s.cards, {s.choreography.pending[0]}, TurnDown)
      && t.choreography == Settling(s.choreography.pending[1..])
      && t.moves == s.moves && t.score == s.score
      && t.confettiShown == s.confettiShown
  {
    var d, p := s.cards, s.choreography.pending;
    var e := UpdateWhere(d, {p[0]}, TurnDown);
    UpdateKeepsMatches(d, {p[0]}, TurnDown);
    SameLayoutKeepsDeckOk(d, e);
    SettlingStep(d, p);
    var u := s.(cards := e, choreography := Settling(p[1..]));
    ChoreographyStepInv(s, e, Settling(p[1..]));
    CompletionEffectSettles(u);
  }

  /** After a shuffle step every face-up unmatched card still has its step
      to come. */
  lemma SettlingStep(d: seq<Card>, p: seq<string>)
    requires p != [] && ChoreographyOk(d, Settling(p))
    ensures ChoreographyOk(UpdateWhere(d, {p[0]}, TurnDown), Settling(p[1..]))
  {
    var e := UpdateWhere(d, {p[0]}, TurnDown);
    forall i | 0 <= i < |d| && IsFaceUp(e[i])
      ensures e[i].id in p[1..]
    {
      assert p == [p[0]] + p[1..];
    }
  }

  /** When the final shuffle step is due only matched cards are face up.
      The step reshuffles the deck (by `ReshuffledIsPermutation`, a
      permutation keeping every matched flag and showing exactly the
      matched cards), unlocks input and keeps the invariant. */
  lemma ShuffleFinishKeeps(s: Session, c: seq<nat>)
    requires Settled(s) && s.choreography == Settling([]) && ValidChoices(c, |s.cards|)
    ensures forall i :: 0 <= i < |s.cards| && s.cards[i].flipped ==> s.cards[i].matched
    ensures var t := ShuffleFinish(s, c);
      && Settled(t)
      && t.cards == ReshuffledDeck(s.cards, c) && !t.disabled && !t.isAnimating
      && CountMatched(t.cards) == CountMatched(s.cards)
      && t.moves == s.moves && t.score == s.score && t.confettiShown == s.confettiShown
  {
    SettlingDone(s.cards);
    var e := ReshuffledDeck(s.cards, c);
    ReshuffleKeeps(s.cards, c);
    var u := s.(cards := e, isAnimating := false, disabled := false, choreography := Idle);
    assert DeckOk(e) && CountMatched(e) == 2 * u.score;
    IdleInv(u);
    CompletionEffectSettles(u);
    assert ShuffleFinish(s, c) == CompletionEffect(u);
  }

  /** A finished settling choreography leaves no card face up and unmatched. */
  lemma SettlingDone(d: seq<Card>)
    requires ChoreographyOk(d, Settling([]))
    ensures forall i :: 0 <= i < |d| && d[i].flipped ==> d[i].matched
  {
  }
}
