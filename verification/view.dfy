/**
 The bookkeeping the game view keeps beside the game: which card ids have
 been dealt from the deck and which have been discarded, the deck-tap rule
 that deals cards, the New Game reset, and the classification of a card's
 border colour from its status flags.
 */
module View {
  import opened Contents
  import opened SetGame
  import opened ViewModel

  /** The view's two id sets. */
  datatype DealState = DealState(dealt: set<int>, discarded: set<int>)

  /** Nothing dealt, nothing discarded: the view's state when it appears. */
  const Initial: DealState := DealState({}, {})

  /** `isUndealt`: the card's id has not been dealt. */
  predicate IsUndealt<C>(st: DealState, card: Card<C>) {
    card.id !in st.dealt
  }

  /** `isDiscarded`: the card's id has been discarded. */
  predicate IsDiscarded<C>(st: DealState, card: Card<C>) {
    card.id in st.discarded
  }

  /** `deal`: records one card as dealt. The card stops being undealt, no
      other id is added, none removed, and the discard pile is untouched. */
  function Deal<C>(st: DealState, card: Card<C>): (r: DealState)
    ensures !IsUndealt(r, card)
    ensures st.dealt <= r.dealt && r.dealt - st.dealt <= {card.id}
    ensures r.discarded == st.discarded
  {
    st.(dealt := st.dealt + {card.id})
  }

  /** `discard`: records one card as discarded. The card becomes discarded,
      no other id is added, none removed, and the dealt set is untouched. */
  function Discard<C>(st: DealState, card: Card<C>): (r: DealState)
    ensures IsDiscarded(r, card)
    ensures st.discarded <= r.discarded && r.discarded - st.discarded <= {card.id}
    ensures r.dealt == st.dealt
  {
    st.(discarded := st.discarded + {card.id})
  }

  /** The first `n` elements of `s`, or all of `s` when it is shorter. */
  function Prefix<T>(s: seq<T>, n: nat): seq<T> {
    if n <= |s| then s[..n] else s
  }

  /** The ids of the first `n` cards (all of them when there are fewer). */
  function PrefixIds<C>(cards: seq<Card<C>>, n: nat): set<int> {
    set k | 0 <= k < |cards| && k < n :: cards[k].id
  }

  /** The ids of a non-empty sequence are its head's id and its tail's ids. */
  lemma IdsOfCons<C>(cs: seq<Card<C>>)
    requires |cs| > 0
    ensures Ids(cs) == {cs[0].id} + Ids(cs[1..])
  {
    forall x | x in Ids(cs) ensures x in {cs[0].id} + Ids(cs[1..]) {
      var k :| 0 <= k < |cs| && cs[k].id == x;
      if k > 0 {
        assert cs[1..][k - 1] == cs[k];
      }
    }
  }

  /** The `for card in … { deal(card) }` loop: deals each card in turn. The
      dealt set gains exactly the ids of the cards; discards are untouched. */
  function DealAll<C>(st: DealState, cs: seq<Card<C>>): (r: DealState)
    ensures r.dealt == st.dealt + Ids(cs)
    ensures r.discarded == st.discarded
    decreases |cs|
  {
    if |cs| == 0 then st
    else
      IdsOfCons(cs);
      DealAll(Deal(st, cs[0]), cs[1..])
  }

  /** How many cards a deck tap deals: 12 when the dealt set is empty
      (`dealt.count == 0`), else 3. */
  function DealCount(st: DealState): nat {
    if st.dealt == {} then 12 else 3
  }

  /** The deck's tap gesture as written: deals the first 12 cards of the game
      when nothing is dealt, and otherwise the first 3 cards of the game,
      whether or not they are already dealt. It only adds to `dealt` and
      leaves `discarded` alone. */
  function TapDeck<C>(st: DealState, cards: seq<Card<C>>): (r: DealState)
    ensures r.dealt == st.dealt + PrefixIds(cards, DealCount(st))
    ensures st.dealt <= r.dealt
    ensures r.discarded == st.discarded
  {
    var n := DealCount(st);
    assert Ids(Prefix(cards, n)) == PrefixIds(cards, n) by {
      forall x | x in PrefixIds(cards, n) ensures x in Ids(Prefix(cards, n)) {
        var k :| 0 <= k < |cards| && k < n && cards[k].id == x;
        assert Prefix(cards, n)[k] == cards[k];
      }
    }
    DealAll(st, Prefix(cards, n))
  }

  /** `k` successive deck taps. */
  function Taps<C>(st: DealState, cards: seq<Card<C>>, k: nat): DealState
    decreases k
  {
    if k == 0 then st else TapDeck(Taps(st, cards, k - 1), cards)
  }

  /** The first `m` ids are among the first `n` when `m <= n`. */
  lemma PrefixIdsGrow<C>(cards: seq<Card<C>>, m: nat, n: nat)
    requires m <= n
    ensures PrefixIds(cards, m) <= PrefixIds(cards, n)
  {
    forall x | x in PrefixIds(cards, m) ensures x in PrefixIds(cards, n) {
      var k :| 0 <= k < |cards| && k < m && cards[k].id == x;
    }
  }

  /** Deck taps never deal beyond the first 12 cards of the game and never
      touch the discard pile. */
  lemma {:induction false} TapsStayWithinFirstTwelve<C>(st: DealState, cards: seq<Card<C>>, k: nat)
    requires st.dealt <= PrefixIds(cards, 12)
    ensures Taps(st, cards, k).dealt <= PrefixIds(cards, 12)
    ensures Taps(st, cards, k).discarded == st.discarded
    decreases k
  {
    if k > 0 {
      TapsStayWithinFirstTwelve(st, cards, k - 1);
      var prev := Taps(st, cards, k - 1);
      var next := TapDeck(prev, cards);
      assert next.dealt == prev.dealt + PrefixIds(cards, DealCount(prev));
      PrefixIdsGrow(cards, DealCount(prev), 12);
      assert Taps(st, cards, k) == next;
    }
  }

  /** As written, once the first tap has dealt the first 12 cards, another
      tap changes nothing: the 3 cards it deals are the game's first 3,
      already dealt. */
  lemma TapAfterFirstDealsNothing<C>(st: DealState, cards: seq<Card<C>>)
    requires st.dealt == PrefixIds(cards, 12)
    ensures TapDeck(st, cards) == st
  {
    PrefixIdsGrow(cards, 3, 12);
  }

  /** From a fresh view, any positive number of taps leaves exactly the
      first 12 cards dealt. */
  lemma {:induction false} TapsFromInitial<C>(cards: seq<Card<C>>, k: nat)
    requires k >= 1
    ensures Taps(Initial, cards, k).dealt == PrefixIds(cards, 12)
    ensures Taps(Initial, cards, k).discarded == {}
    decreases k
  {
    if k > 1 {
      TapsFromInitial(cards, k - 1);
      TapAfterFirstDealsNothing(Taps(Initial, cards, k - 1), cards);
    }
  }

  /** `game.cards.filter(isUndealt)`: the undealt cards, in game order
      (`UndealtMembers` and `UndealtKeepsOrder` state both halves). */
  function Undealt<C>(st: DealState, cards: seq<Card<C>>): (u: seq<Card<C>>)
    ensures |u| <= |cards|
    ensures forall k :: 0 <= k < |u| ==> IsUndealt(st, u[k])
    ensures Ids(u) <= Ids(cards)
    decreases |cards|
  {
    if |cards| == 0 then []
    else
      IdsOfCons(cards);
      var rest := Undealt(st, cards[1..]);
      if IsUndealt(st, cards[0]) then
        IdsOfCons([cards[0]] + rest);
        assert ([cards[0]] + rest)[1..] == rest;
        [cards[0]] + rest
      else rest
  }

  /** The filter keeps exactly the undealt cards: a card is in the result
      if and only if it is one of `cards` and undealt. */
  lemma {:induction false} UndealtMembers<C>(st: DealState, cards: seq<Card<C>>)
    ensures forall c :: c in Undealt(st, cards) <==> c in cards && IsUndealt(st, c)
    decreases |cards|
  {
    if |cards| > 0 {
      UndealtMembers(st, cards[1..]);
      assert cards == [cards[0]] + cards[1..];
    }
  }

  /** The filter keeps game order: filtering a concatenation is the
      concatenation of the filtered parts. */
  lemma {:induction false} UndealtKeepsOrder<C>(st: DealState, a: seq<Card<C>>, b: seq<Card<C>>)
    ensures Undealt(st, a + b) == Undealt(st, a) + Undealt(st, b)
    decreases |a|
  {
    if |a| > 0 {
      UndealtKeepsOrder(st, a[1..], b);
      assert (a + b)[1..] == a[1..] + b;
      assert (a + b)[0] == a[0];
    } else {
      assert a + b == b;
    }
  }

  /** Filtering keeps ids distinct. */
  lemma {:induction false} UndealtKeepsDistinctIds<C>(st: DealState, cards: seq<Card<C>>)
    requires DistinctIds(cards)
    ensures DistinctIds(Undealt(st, cards))
    decreases |cards|
  {
    if |cards| > 0 {
      var rest := cards[1..];
      assert DistinctIds(rest) by {
        forall i, j | 0 <= i < j < |rest| ensures rest[i].id != rest[j].id {
          assert rest[i] == cards[i + 1] && rest[j] == cards[j + 1];
        }
      }
      UndealtKeepsDistinctIds(st, rest);
      if IsUndealt(st, cards[0]) {
        var u := Undealt(st, rest);
        assert cards[0].id !in Ids(rest) by {
          forall k | 0 <= k < |rest| ensures rest[k].id != cards[0].id {
            assert rest[k] == cards[k + 1];
          }
        }
        var w := [cards[0]] + u;
        forall i, j | 0 <= i < j < |w| ensures w[i].id != w[j].id {
          if i == 0 {
            assert w[j] == u[j - 1];
            assert u[j - 1].id in Ids(u);
          } else {
            assert w[i] == u[i - 1] && w[j] == u[j - 1];
          }
        }
      }
    }
  }

  /** The deck tap as evidently intended by its "deal 12 … or else 3"
      comment: deals the first 12, or 3, of the cards not yet dealt. */
  function TapDeckUndealt<C>(st: DealState, cards: seq<Card<C>>): (r: DealState)
    ensures st.dealt <= r.dealt
    ensures r.discarded == st.discarded
    ensures r.dealt - st.dealt <= Ids(cards)
  {
    DealAll(st, Prefix(Undealt(st, cards), DealCount(st)))
  }

  /** With ids distinct, the intended tap deals exactly min(n, undealt) new
      cards, where n is 12 for the first tap and 3 afterwards. */
  lemma TapDeckUndealtDealsNewCards<C>(st: DealState, cards: seq<Card<C>>)
    requires DistinctIds(cards)
    ensures var n := DealCount(st);
            var u := |Undealt(st, cards)|;
            |TapDeckUndealt(st, cards).dealt| == |st.dealt| + (if n <= u then n else u)
  {
    var u := Undealt(st, cards);
    var p := Prefix(u, DealCount(st));
    UndealtKeepsDistinctIds(st, cards);
    assert DistinctIds(p) by {
      forall i, j | 0 <= i < j < |p| ensures p[i].id != p[j].id {
        assert p[i] == u[i] && p[j] == u[j];
      }
    }
    DistinctIdsCount(p);
    assert st.dealt * Ids(p) == {} by {
      forall x | x in Ids(p) ensures x !in st.dealt {
        var k :| 0 <= k < |p| && p[k].id == x;
        assert p[k] == u[k];
      }
    }
  }

  /** The first `n` ids of cards with distinct ids are min(n, |cards|) many. */
  lemma PrefixIdsCount<C>(cards: seq<Card<C>>, n: nat)
    requires DistinctIds(cards)
    ensures |PrefixIds(cards, n)| == if n <= |cards| then n else |cards|
  {
    var p := Prefix(cards, n);
    assert Ids(p) == PrefixIds(cards, n) by {
      forall x | x in PrefixIds(cards, n) ensures x in Ids(p) {
        var k :| 0 <= k < |cards| && k < n && cards[k].id == x;
        assert p[k] == cards[k];
      }
    }
    assert DistinctIds(p) by {
      forall i, j | 0 <= i < j < |p| ensures p[i].id != p[j].id {
        assert p[i] == cards[i] && p[j] == cards[j];
      }
    }
    DistinctIdsCount(p);
  }

  /** As written, on a fresh 81-card game a second deck tap deals nothing:
      12 cards are dealt after two taps, not 15. */
  lemma SecondTapAsWritten(game: Game<Content>)
    requires IsFreshDeck(game)
    ensures |Taps(Initial, game.cards, 2).dealt| == 12
  {
    TapsFromInitial(game.cards, 2);
    PrefixIdsCount(game.cards, 12);
  }

  /** With the intended rule, on a fresh 81-card game the first tap deals 12
      cards and the second 3 more. */
  lemma SecondTapIntended(game: Game<Content>)
    requires IsFreshDeck(game)
    ensures |TapDeckUndealt(Initial, game.cards).dealt| == 12
    ensures |TapDeckUndealt(TapDeckUndealt(Initial, game.cards), game.cards).dealt| == 15
  {
    var cards := game.cards;
    UndealtOfNothingDealt(cards);
    TapDeckUndealtDealsNewCards(Initial, cards);
    var first := TapDeckUndealt(Initial, cards);
    assert |first.dealt| == 12;
    DistinctIdsCount(cards);
    assert Ids(cards) == (Ids(cards) - first.dealt) + first.dealt;
    assert |Ids(cards) - first.dealt| == 69;
    UndealtCount(first, cards);
    TapDeckUndealtDealsNewCards(first, cards);
  }

  /** With nothing dealt, every card is undealt. */
  lemma {:induction false} UndealtOfNothingDealt<C>(cards: seq<Card<C>>)
    ensures Undealt(Initial, cards) == cards
    decreases |cards|
  {
    if |cards| > 0 {
      UndealtOfNothingDealt(cards[1..]);
      assert cards == [cards[0]] + cards[1..];
    }
  }

  /** The undealt cards number at least the cards whose ids are not dealt. */
  lemma {:induction false} UndealtCount<C>(st: DealState, cards: seq<Card<C>>)
    ensures |Undealt(st, cards)| >= |Ids(cards) - st.dealt|
    decreases |cards|
  {
    if |cards| > 0 {
      IdsOfCons(cards);
      UndealtCount(st, cards[1..]);
      var rest := Ids(cards[1..]) - st.dealt;
      var head := {cards[0].id} - st.dealt;
      assert Ids(cards) - st.dealt == rest + head;
      if IsUndealt(st, cards[0]) {
        assert head == {cards[0].id};
      } else {
        assert head == {};
      }
    }
  }

  /** The New Game button: empties both id sets and has the view model
      start a new game. Afterwards every card is undealt, none discarded. */
  method PressNewGame(st: DealState, vm: SetGameViewModel, pick: nat -> nat) returns (st': DealState, vm': SetGameViewModel)
    ensures st'.dealt == {} && st'.discarded == {}
    ensures IsFreshDeck(vm'.model)
    ensures forall k :: 0 <= k < |vm'.model.cards| ==>
              IsUndealt(st', vm'.model.cards[k]) && !IsDiscarded(st', vm'.model.cards[k])
  {
    st' := DealState({}, {});
    vm' := StartNewGame(vm, pick);
  }

  /** The four border colours a card can be drawn with. */
  datatype Border = Black | Green | Red | Blue

  /** `game.cards.filter(isSelected).count`. */
  function CountSelected<C>(cards: seq<Card<C>>): (n: nat)
    ensures n <= |cards|
    decreases |cards|
  {
    if |cards| == 0 then 0
    else CountSelected(cards[..|cards| - 1]) + (if cards[|cards| - 1].isSelected then 1 else 0)
  }

  /** The positions of selected cards. */
  function SelectedPositions<C>(cards: seq<Card<C>>): set<nat> {
    set k: nat | k < |cards| && cards[k].isSelected
  }

  /** `CountSelected` counts exactly the selected positions. */
  lemma {:induction false} CountSelectedIsSelectedPositions<C>(cards: seq<Card<C>>)
    ensures CountSelected(cards) == |SelectedPositions(cards)|
    decreases |cards|
  {
    if |cards| > 0 {
      var last := |cards| - 1;
      var init := cards[..last];
      CountSelectedIsSelectedPositions(init);
      var extra: set<nat> := if cards[last].isSelected then {last} else {};
      assert SelectedPositions(cards) == SelectedPositions(init) + extra by {
        forall k: nat | k < last ensures cards[k] == init[k] {
        }
      }
      assert last !in SelectedPositions(init);
    }
  }

  /** `getBorderColor`: green for a matched card whatever its selection; for
      an unmatched card, red when it is selected and exactly three cards are,
      blue when it is selected otherwise, black when it is not selected. */
  function BorderColor<C>(card: Card<C>, cards: seq<Card<C>>): (b: Border)
    ensures b == Green <==> card.isMatched
    ensures b == Red <==> !card.isMatched && card.isSelected && |SelectedPositions(cards)| == 3
    ensures b == Blue <==> !card.isMatched && card.isSelected && |SelectedPositions(cards)| != 3
    ensures b == Black <==> !card.isMatched && !card.isSelected
  {
    CountSelectedIsSelectedPositions(cards);
    if card.isMatched then Green
    else if card.isSelected && CountSelected(cards) == 3 then Red
    else if card.isSelected then Blue
    else Black
  }

  /** A fresh game shows every card with a black border. */
  lemma FreshDeckBordersBlack(game: Game<Content>)
    requires IsFreshDeck(game)
    ensures forall k :: 0 <= k < |game.cards| ==> BorderColor(game.cards[k], game.cards) == Black
  {
  }
}
