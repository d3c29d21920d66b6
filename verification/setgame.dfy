/**
 The game model: a deck of cards, each carrying an integer id, two status
 flags and an immutable content. Building a game numbers the contents in
 order and then shuffles the numbered cards.
 */
module SetGame {
  import opened Seqs

  /** One card. `id` is the card's identity; a new card is neither selected
      nor matched; `content` never changes once the card is built. */
  datatype Card<C> = Card(id: int, isSelected: bool, isMatched: bool, content: C)

  /** The game's state: its cards in deck order. */
  datatype Game<C> = Game(cards: seq<Card<C>>)

  /** The card built for the content at position `i` before any shuffle. */
  function FreshCard<C>(i: int, content: C): Card<C> {
    Card(i, false, false, content)
  }

  /** The set of ids carried by `cards`. */
  function Ids<C>(cards: seq<Card<C>>): set<int> {
    set k | 0 <= k < |cards| :: cards[k].id
  }

  /** No two cards of `cards` share an id. */
  predicate DistinctIds<C>(cards: seq<Card<C>>) {
    forall i, j :: 0 <= i < j < |cards| ==> cards[i].id != cards[j].id
  }

  /** Every card of `cards` is the fresh card for its own id, and that id is
      a position of `contents`: ids stay bound to their contents. */
  predicate BoundTo<C(==)>(cards: seq<Card<C>>, contents: seq<C>) {
    forall k :: 0 <= k < |cards| ==>
      0 <= cards[k].id < |contents| && cards[k] == FreshCard(cards[k].id, contents[cards[k].id])
  }

  /** Numbers the contents in order: the card at position `i` gets id `i`
      and content `contents[i]` and starts unselected and unmatched. */
  method EnumerateCards<C>(contents: seq<C>) returns (cards: seq<Card<C>>)
    ensures |cards| == |contents|
    ensures forall i :: 0 <= i < |cards| ==> cards[i] == FreshCard(i, contents[i])
  {
    cards := [];
    for index := 0 to |contents|
      invariant |cards| == index
      invariant forall i :: 0 <= i < index ==> cards[i] == FreshCard(i, contents[i])
    {
      cards := cards + [FreshCard(index, contents[index])];
    }
  }

  /** Exchanges the elements at positions `i` and `j`. */
  function Swap<T>(s: seq<T>, i: nat, j: nat): (r: seq<T>)
    requires i < |s| && j < |s|
    ensures |r| == |s| && r[i] == s[j] && r[j] == s[i]
    ensures forall k :: 0 <= k < |s| && k != i && k != j ==> r[k] == s[k]
    ensures IsPermutation(s, r)
  {
    s[i := s[j]][j := s[i]]
  }

  /** The in-place shuffle: a Fisher–Yates pass in which, while more than one
      element is left, a random offset below the number left picks the
      element swapped into the current position. The random source is the
      parameter `pick`; whatever it returns, the result is a reordering. */
  method Shuffle<T>(s: seq<T>, pick: nat -> nat) returns (r: seq<T>)
    ensures |r| == |s|
    ensures IsPermutation(s, r)
  {
    r := s;
    var amount := |s|;
    var current := 0;
    while amount > 1
      invariant current + amount == |s|
      invariant |r| == |s|
      invariant IsPermutation(s, r)
    {
      var offset := pick(current) % amount;
      amount := amount - 1;
      r := Swap(r, current, current + offset);
      current := current + 1;
    }
  }

  /** Ids that are pairwise distinct are as many as the cards. */
  lemma {:induction false} DistinctIdsCount<C>(cards: seq<Card<C>>)
    requires DistinctIds(cards)
    ensures |Ids(cards)| == |cards|
  {
    if |cards| > 0 {
      var init := cards[..|cards| - 1];
      var last := cards[|cards| - 1];
      assert DistinctIds(init) by {
        forall i, j | 0 <= i < j < |init| ensures init[i].id != init[j].id {
          assert init[i] == cards[i] && init[j] == cards[j];
        }
      }
      DistinctIdsCount(init);
      assert Ids(cards) == Ids(init) + {last.id} by {
        forall x | x in Ids(cards) ensures x in Ids(init) + {last.id} {
          var k :| 0 <= k < |cards| && cards[k].id == x;
          if k < |init| {
            assert init[k] == cards[k];
          }
        }
        forall x | x in Ids(init) ensures x in Ids(cards) {
          var k :| 0 <= k < |init| && init[k].id == x;
          assert cards[k] == init[k];
        }
      }
      assert last.id !in Ids(init) by {
        forall k | 0 <= k < |init| ensures init[k].id != last.id {
          assert init[k] == cards[k];
        }
      }
    }
  }

  /** Cards bound to the same contents and free of repetitions carry
      pairwise distinct ids, since the id fixes the whole card. */
  lemma BoundCardsHaveDistinctIds<C>(cards: seq<Card<C>>, contents: seq<C>)
    requires BoundTo(cards, contents) && Distinct(cards)
    ensures DistinctIds(cards)
  {
    forall i, j | 0 <= i < j < |cards| ensures cards[i].id != cards[j].id {
      assert cards[i] != cards[j];
    }
  }

  /** `init(setCardContent:)`: one card per content with id = position, all
      flags clear, then shuffled. The result is a reordering of the numbered
      cards: each numbered card occurs exactly once, every card is bound to
      its content, and the ids are exactly 0 ..< n with no repetition. */
  method NewGame<C(==)>(contents: seq<C>, pick: nat -> nat) returns (game: Game<C>)
    ensures |game.cards| == |contents|
    ensures forall i :: 0 <= i < |contents| ==> multiset(game.cards)[FreshCard(i, contents[i])] == 1
    ensures BoundTo(game.cards, contents)
    ensures DistinctIds(game.cards)
    ensures forall i :: i in Ids(game.cards) <==> 0 <= i < |contents|
  {
    var numbered := EnumerateCards(contents);
    assert Distinct(numbered) by {
      forall i, j | 0 <= i < j < |numbered| ensures numbered[i] != numbered[j] {
        assert numbered[i].id == i && numbered[j].id == j;
      }
    }
    var shuffled := Shuffle(numbered, pick);
    game := Game(shuffled);
    forall i | 0 <= i < |contents| ensures multiset(shuffled)[FreshCard(i, contents[i])] == 1 {
      PermutationKeepsEachOnce(numbered, shuffled, i);
    }
    forall k | 0 <= k < |shuffled|
      ensures 0 <= shuffled[k].id < |contents| && shuffled[k] == FreshCard(shuffled[k].id, contents[shuffled[k].id])
    {
      assert shuffled[k] in multiset(numbered);
      var i :| 0 <= i < |numbered| && numbered[i] == shuffled[k];
    }
    PermutationKeepsDistinct(numbered, shuffled);
    BoundCardsHaveDistinctIds(shuffled, contents);
    forall i | 0 <= i < |contents| ensures i in Ids(shuffled) {
      assert numbered[i] in multiset(shuffled);
      var k :| 0 <= k < |shuffled| && shuffled[k] == numbered[i];
    }
  }
}
