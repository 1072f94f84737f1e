/** The cards of `src/App.jsx`: the icon set, the card record, the deck
    that `initGame` builds, and the update by card id that every handler
    applies to the previous deck. */
module Deck {
  import opened Seqs
  import opened FisherYates

  type Icon = string

  /** The eight symbols; each appears twice in a deck. */
  const ICONS: seq<Icon> := ["🍎", "🍌", "🍇", "🍓", "🍑", "🍍", "🥝", "🍉"]

  /** Number of cards in a deck: two copies of every icon. */
  const DECK_SIZE: nat := 2 * |ICONS|

  datatype Card = Card(id: string, icon: Icon, flipped: bool, matched: bool)

  // ---------------------------------------------------------------------
  // Card ids: the position written in decimal, a dash, then the icon.

  predicate IsDigit(ch: char) {
    '0' <= ch <= '9'
  }

  predicate AllDigits(s: string) {
    forall k :: 0 <= k < |s| ==> IsDigit(s[k])
  }

  function DigitChar(d: nat): (ch: char)
    requires d < 10
    ensures IsDigit(ch) && ch as int - '0' as int == d
  {
    ('0' as int + d) as char
  }

  /** The decimal numeral of `n`, as JavaScript writes a non-negative
      integer that is concatenated with a string. */
  function Decimal(n: nat): (s: string)
    ensures |s| > 0 && AllDigits(s)
    decreases n
  {
    if n < 10 then [DigitChar(n)] else Decimal(n / 10) + [DigitChar(n % 10)]
  }

  /** The number a string of digits denotes; the inverse of `Decimal`. */
  function DecimalValue(s: string): nat
    requires AllDigits(s)
    decreases |s|
  {
    if s == [] then 0
    else 10 * DecimalValue(s[..|s| - 1]) + (s[|s| - 1] as int - '0' as int)
  }

  /** Reading back a numeral gives the number it was written from. */
  lemma {:induction false} DecimalRoundTrip(n: nat)
    ensures DecimalValue(Decimal(n)) == n
    decreases n
  {
    var s := Decimal(n);
    if n >= 10 {
      assert s[..|s| - 1] == Decimal(n / 10);
      assert s[|s| - 1] == DigitChar(n % 10);
      DecimalRoundTrip(n / 10);
    } else {
      assert s[..|s| - 1] == [];
    }
  }

  /** The id `initGame` gives the card at position `idx`. */
  function CardId(idx: nat, icon: Icon): string {
    Decimal(idx) + "-" + icon
  }

  /** Ids made from different positions differ: the numeral ends at the
      first '-', so the id determines the position (and the icon). */
  lemma CardIdInjective(i: nat, x: Icon, j: nat, y: Icon)
    requires CardId(i, x) == CardId(j, y)
    ensures i == j && x == y
  {
    var s, t := Decimal(i), Decimal(j);
    var u := CardId(i, x);
    assert u == t + "-" + y;
    assert u[|s|] == '-' && u[|t|] == '-';
    assert |s| == |t|;
    assert s == u[..|s|] == t;
    DecimalRoundTrip(i);
    DecimalRoundTrip(j);
    assert x == u[|s| + 1..] == y;
  }

  // ---------------------------------------------------------------------
  // Views of a deck.

  function IdOf(c: Card): string { c.id }
  function IconOf(c: Card): Icon { c.icon }
  function MatchedOf(c: Card): bool { c.matched }

  function IdsOf(d: seq<Card>): seq<string> { Map(IdOf, d) }
  function IconsOf(d: seq<Card>): seq<Icon> { Map(IconOf, d) }

  /** What every deck of the game satisfies: sixteen cards, the icons a
      permutation of two copies of `ICONS`, and no id used twice. */
  ghost predicate DeckOk(d: seq<Card>) {
    && |d| == DECK_SIZE
    && multiset(IconsOf(d)) == multiset(ICONS + ICONS)
    && Distinct(IdsOf(d))
  }

  /** Position by position the same ids and icons: only flags differ. */
  predicate SameLayout(a: seq<Card>, b: seq<Card>) {
    |a| == |b| && forall i :: 0 <= i < |a| ==> a[i].id == b[i].id && a[i].icon == b[i].icon
  }

  /** Every card is matched (line 70). */
  predicate AllMatched(d: seq<Card>) {
    forall i :: 0 <= i < |d| ==> d[i].matched
  }

  /** The game is complete: the deck is not empty and every card is
      matched (lines 70 and 137). */
  predicate Completed(d: seq<Card>) {
    |d| > 0 && AllMatched(d)
  }

  /** Number of matched cards (score is half of it in a normal game). */
  function CountMatched(d: seq<Card>): nat
    decreases |d|
  {
    if d == [] then 0
    else CountMatched(d[..|d| - 1]) + (if d[|d| - 1].matched then 1 else 0)
  }

  // ---------------------------------------------------------------------
  // Building the deck (`initGame`, lines 103-108).

  /** The deck `initGame` deals from a shuffled order of icons (lines
      103-108): the card at position `i` carries the `i`-th icon and the id
      made from `i` and that icon, face down and unmatched. */
  function BuildDeck(order: seq<Icon>): (d: seq<Card>)
    ensures |d| == |order|
  {
    seq(|order|, i requires 0 <= i < |order| => Card(CardId(i, order[i]), order[i], false, false))
  }

  /** The icons are pairwise different symbols. */
  lemma IconsDistinct()
    ensures |ICONS| == 8 && Distinct(ICONS)
  {
  }

  /** A deck built from a shuffle of two copies of `ICONS` is a good deck
      whose cards are all face down and unmatched, in the shuffled order. */
  lemma FreshDeck(order: seq<Icon>)
    requires multiset(order) == multiset(ICONS + ICONS)
    ensures DeckOk(BuildDeck(order))
    ensures IconsOf(BuildDeck(order)) == order
    ensures forall i :: 0 <= i < |order| ==> !BuildDeck(order)[i].flipped && !BuildDeck(order)[i].matched
    ensures !Completed(BuildDeck(order))
  {
    var d := BuildDeck(order);
    assert |order| == |multiset(order)| == |ICONS + ICONS| == DECK_SIZE;
    assert IconsOf(d) == order;
    forall a, b | 0 <= a < b < |d|
      ensures IdsOf(d)[a] != IdsOf(d)[b]
    {
      if IdsOf(d)[a] == IdsOf(d)[b] {
        CardIdInjective(a, order[a], b, order[b]);
      }
    }
    assert !d[0].matched;
  }

  /** Each icon of the set appears exactly twice in a good deck, and no
      other icon appears. */
  lemma EachIconTwice(d: seq<Card>, x: Icon)
    requires DeckOk(d)
    ensures multiset(IconsOf(d))[x] == if x in ICONS then 2 else 0
  {
    IconsDistinct();
    DistinctMultiplicity(ICONS, x);
    assert multiset(ICONS + ICONS) == multiset(ICONS) + multiset(ICONS);
  }

  // ---------------------------------------------------------------------
  // Per-card updates.

  function TurnUp(c: Card): Card { c.(flipped := true) }
  function TurnDown(c: Card): Card { c.(flipped := false) }
  function MarkMatched(c: Card): Card { c.(matched := true) }
  function Unwound(c: Card): Card { c.(flipped := false, matched := false) }
  /** The card shown exactly when it is matched, as a reshuffle leaves it
      (lines 229-232 and 247-250). */
  function Normalized(c: Card): Card { c.(flipped := c.matched) }

  /** A card update that leaves identity and icon alone. */
  ghost predicate KeepsFace(f: Card -> Card) {
    forall c :: f(c).id == c.id && f(c).icon == c.icon
  }

  /** The card update `f` applied to every card whose id is in `ids`, the
      other cards left as they were: how every handler changes the deck
      (lines 39-43, 48-52, 124, 157-161, 210-214). */
  function UpdateWhere(d: seq<Card>, ids: set<string>, f: Card -> Card): (r: seq<Card>)
    ensures |r| == |d|
    ensures KeepsFace(f) ==> SameLayout(d, r)
  {
    seq(|d|, i requires 0 <= i < |d| => if d[i].id in ids then f(d[i]) else d[i])
  }

  /** With distinct ids, updating by the id of the card at `k` changes that
      card and no other. */
  lemma UpdateOne(d: seq<Card>, k: nat, f: Card -> Card)
    requires Distinct(IdsOf(d)) && k < |d|
    ensures UpdateWhere(d, {d[k].id}, f) == d[k := f(d[k])]
  {
    var r := UpdateWhere(d, {d[k].id}, f);
    forall i | 0 <= i < |d|
      ensures r[i] == d[k := f(d[k])][i]
    {
      if i != k {
        assert IdsOf(d)[i] != IdsOf(d)[k] by {
          if i < k {} else {}
        }
      }
    }
  }

  /** With distinct ids, updating by the ids of the cards at `i` and `j`
      changes those two cards and no other. */
  lemma UpdatePair(d: seq<Card>, i: nat, j: nat, f: Card -> Card)
    requires Distinct(IdsOf(d)) && i < |d| && j < |d|
    ensures UpdateWhere(d, {d[i].id, d[j].id}, f) == d[i := f(d[i])][j := f(d[j])]
  {
    var r := UpdateWhere(d, {d[i].id, d[j].id}, f);
    forall k | 0 <= k < |d|
      ensures r[k] == d[i := f(d[i])][j := f(d[j])][k]
    {
      if k != i && k != j {
        assert IdsOf(d)[k] != IdsOf(d)[i] by {
          if k < i {} else {}
        }
        assert IdsOf(d)[k] != IdsOf(d)[j] by {
          if k < j {} else {}
        }
      }
    }
  }

  /** Marking one unmatched card matched adds one to the count. */
  lemma {:induction false} CountMatchedMark(d: seq<Card>, i: nat)
    requires i < |d|
    ensures CountMatched(d[i := MarkMatched(d[i])]) == CountMatched(d) + (if d[i].matched then 0 else 1)
    decreases |d|
  {
    var r := d[i := MarkMatched(d[i])];
    var n := |d| - 1;
    if i == n {
      assert r[..n] == d[..n];
    } else {
      assert r[..n] == d[..n][i := MarkMatched(d[i])];
      CountMatchedMark(d[..n], i);
    }
  }

  /** Marking two different unmatched cards matched, by their ids, changes
      nothing else and adds two to the count. */
  lemma MarkPairCount(d: seq<Card>, i: nat, j: nat)
    requires Distinct(IdsOf(d)) && i < |d| && j < |d| && i != j
    requires !d[i].matched && !d[j].matched
    ensures UpdateWhere(d, {d[i].id, d[j].id}, MarkMatched) == d[i := MarkMatched(d[i])][j := MarkMatched(d[j])]
    ensures CountMatched(UpdateWhere(d, {d[i].id, d[j].id}, MarkMatched)) == CountMatched(d) + 2
  {
    UpdatePair(d, i, j, MarkMatched);
    var e := d[i := MarkMatched(d[i])];
    CountMatchedMark(d, i);
    assert e[j] == d[j];
    CountMatchedMark(e, j);
  }

  /** `e` is `d` with exactly two different face-up unmatched cards, the
      ones with ids `a` and `b`, marked matched, and every other card as it
      was. */
  ghost predicate PairMarked(d: seq<Card>, e: seq<Card>, a: string, b: string) {
    exists i, j ::
      && 0 <= i < |d| && 0 <= j < |d| && i != j
      && d[i].id == a && d[j].id == b && IsFaceUp(d[i]) && IsFaceUp(d[j])
      && e == d[i := MarkMatched(d[i])][j := MarkMatched(d[j])]
  }

  /** An update that only turns cards over keeps every matched flag, hence
      the count of matched cards and completion. */
  lemma UpdateKeepsMatches(d: seq<Card>, ids: set<string>, f: Card -> Card)
    requires forall c :: f(c).matched == c.matched
    ensures CountMatched(UpdateWhere(d, ids, f)) == CountMatched(d)
    ensures Completed(UpdateWhere(d, ids, f)) == Completed(d)
  {
    var r := UpdateWhere(d, ids, f);
    assert Map(MatchedOf, r) == Map(MatchedOf, d);
    CountMatchedMultiplicity(r);
    CountMatchedMultiplicity(d);
  }

  /** Changing flags only keeps a deck good. */
  lemma SameLayoutKeepsDeckOk(a: seq<Card>, b: seq<Card>)
    requires SameLayout(a, b) && DeckOk(a)
    ensures DeckOk(b)
  {
    assert IdsOf(a) == IdsOf(b);
    assert IconsOf(a) == IconsOf(b);
  }

  /** The ids of the cards that pass `keep`, in deck order, as `restart`
      (line 146) and `handleShuffle` (lines 189 and 200) collect them. */
  function IdsWhere(d: seq<Card>, keep: Card -> bool): (r: seq<string>)
    ensures |r| <= |d|
    ensures forall x :: x in r <==> exists i :: 0 <= i < |d| && keep(d[i]) && d[i].id == x
    decreases |d|
  {
    if d == [] then []
    else
      var front := d[..|d| - 1];
      assert forall i :: 0 <= i < |front| ==> front[i] == d[i];
      IdsWhere(front, keep) + (if keep(d[|d| - 1]) then [d[|d| - 1].id] else [])
  }

  /** The card is matched: the filter of `restart`. */
  predicate IsMatched(c: Card) { c.matched }

  /** Face up but not yet matched: the filter of `handleShuffle`. */
  predicate IsFaceUp(c: Card) { c.flipped && !c.matched }

  /** On a complete deck the matched ids are all the ids, in deck order. */
  lemma {:induction false} AllMatchedIds(d: seq<Card>)
    requires AllMatched(d)
    ensures IdsWhere(d, IsMatched) == IdsOf(d)
    decreases |d|
  {
    if d != [] {
      var front := d[..|d| - 1];
      AllMatchedIds(front);
      assert IdsOf(d) == IdsOf(front) + [d[|d| - 1].id];
    }
  }

  /** A deck without matched cards counts none. */
  lemma {:induction false} NoneMatchedCount(d: seq<Card>)
    requires forall i :: 0 <= i < |d| ==> !d[i].matched
    ensures CountMatched(d) == 0
    decreases |d|
  {
    if d != [] {
      NoneMatchedCount(d[..|d| - 1]);
    }
  }

  // ---------------------------------------------------------------------
  // Shuffling a deck in play (`handleShuffle`, lines 226-233 and 244-251).

  /** Every card of the deck shown exactly when it is matched. */
  function NormalizeDeck(d: seq<Card>): seq<Card> {
    Map(Normalized, d)
  }

  /** The deck `handleShuffle` leaves: `d` shuffled with the draws `c`,
      then every card shown exactly when it is matched. */
  function ReshuffledDeck(d: seq<Card>, c: seq<nat>): seq<Card>
    requires ValidChoices(c, |d|)
  {
    NormalizeDeck(Shuffled(d, c, |d|))
  }

  /** A reshuffle is a permutation of the old deck in which every card keeps
      its id, icon and matched flag and is face up exactly when matched. */
  lemma ReshuffledIsPermutation(d: seq<Card>, c: seq<nat>)
    requires ValidChoices(c, |d|)
    ensures |ReshuffledDeck(d, c)| == |d|
    ensures multiset(ReshuffledDeck(d, c)) == multiset(NormalizeDeck(d))
    ensures forall i :: 0 <= i < |d| ==> ReshuffledDeck(d, c)[i].flipped == ReshuffledDeck(d, c)[i].matched
  {
    ShuffledMap(Normalized, d, c, |d|);
    ShuffledPermutes(NormalizeDeck(d), c, |d|);
  }

  /** The number of matched cards is the multiplicity of `true` among the
      matched flags. */
  lemma {:induction false} CountMatchedMultiplicity(d: seq<Card>)
    ensures CountMatched(d) == multiset(Map(MatchedOf, d))[true]
    decreases |d|
  {
    if d != [] {
      var front := d[..|d| - 1];
      CountMatchedMultiplicity(front);
      assert Map(MatchedOf, d) == Map(MatchedOf, front) + [d[|d| - 1].matched];
    }
  }

  /** Every card is matched exactly when all are counted. */
  lemma {:induction false} CountMatchedAll(d: seq<Card>)
    ensures CountMatched(d) <= |d|
    ensures CountMatched(d) == |d| <==> AllMatched(d)
    decreases |d|
  {
    if d != [] {
      var front := d[..|d| - 1];
      CountMatchedAll(front);
      assert forall i :: 0 <= i < |front| ==> front[i] == d[i];
    }
  }

  /** A reshuffle keeps the deck good, the number of matched cards, and
      whether the game is complete. */
  lemma ReshuffleKeeps(d: seq<Card>, c: seq<nat>)
    requires ValidChoices(c, |d|)
    ensures CountMatched(ReshuffledDeck(d, c)) == CountMatched(d)
    ensures Completed(ReshuffledDeck(d, c)) == Completed(d)
    ensures DeckOk(d) ==> DeckOk(ReshuffledDeck(d, c))
  {
    ReshuffleKeepsCount(d, c);
    if DeckOk(d) {
      ReshuffleKeepsDeck(d, c);
    }
  }

  /** The matched flags of a reshuffle are a permutation of the old ones. */
  lemma ReshuffleKeepsCount(d: seq<Card>, c: seq<nat>)
    requires ValidChoices(c, |d|)
    ensures CountMatched(ReshuffledDeck(d, c)) == CountMatched(d)
    ensures Completed(ReshuffledDeck(d, c)) == Completed(d)
  {
    var s := Shuffled(d, c, |d|);
    var r := ReshuffledDeck(d, c);
    assert Map(MatchedOf, r) == Map(MatchedOf, s);
    ShuffledMap(MatchedOf, d, c, |d|);
    ShuffledPermutes(Map(MatchedOf, d), c, |d|);
    CountMatchedMultiplicity(r);
    CountMatchedMultiplicity(d);
    CountMatchedAll(r);
    CountMatchedAll(d);
  }

  /** The ids and icons of a reshuffle are a permutation of the old ones. */
  lemma ReshuffleKeepsDeck(d: seq<Card>, c: seq<nat>)
    requires ValidChoices(c, |d|) && DeckOk(d)
    ensures DeckOk(ReshuffledDeck(d, c))
  {
    var s := Shuffled(d, c, |d|);
    var r := ReshuffledDeck(d, c);
    assert IdsOf(r) == IdsOf(s);
    assert IconsOf(r) == IconsOf(s);
    ShuffledMap(IdOf, d, c, |d|);
    ShuffledMap(IconOf, d, c, |d|);
    ShuffledKeepsDistinct(IdsOf(d), c, |d|);
    ShuffledPermutes(IconsOf(d), c, |d|);
  }

}
