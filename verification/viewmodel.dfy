/**
 The view model: it owns one game over the 81 attribute combinations and
 replaces it wholesale when a new game starts. Its other intents (choosing
 a card, dealing three cards) forward to game operations that this model
 does not contain.
 */
module ViewModel {
  import opened Seqs
  import opened Contents
  import opened SetGame

  /** The view model's state: the game it publishes. */
  datatype SetGameViewModel = SetGameViewModel(model: Game<Content>)

  /** A freshly dealt-out game over the full deck: 81 cards, every attribute
      combination on exactly one card whose id is that combination's
      position in the generated list, no two cards alike, no card selected
      or matched. */
  ghost predicate IsFreshDeck(game: Game<Content>) {
    && |game.cards| == DeckSize
    && (forall x: Content :: multiset(game.cards)[FreshCard(Index(x), x)] == 1)
    && (forall k :: 0 <= k < |game.cards| ==>
          0 <= game.cards[k].id < DeckSize && game.cards[k] == FreshCard(game.cards[k].id, ContentAt(game.cards[k].id)))
    && Distinct(game.cards)
    && DistinctIds(game.cards)
  }

  /** `createSetGame`: a game built from the generated contents. */
  method CreateSetGame(pick: nat -> nat) returns (game: Game<Content>)
    ensures IsFreshDeck(game)
  {
    var contents := CreateCardContent();
    game := NewGame(contents, pick);
    forall x: Content ensures multiset(game.cards)[FreshCard(Index(x), x)] == 1 {
      assert contents[Index(x)] == x;
    }
    forall i, j | 0 <= i < j < |game.cards| ensures game.cards[i] != game.cards[j] {
      assert game.cards[i].id != game.cards[j].id;
    }
  }

  /** `init()`: the view model starts with a fresh game. */
  method Init(pick: nat -> nat) returns (vm: SetGameViewModel)
    ensures IsFreshDeck(vm.model)
  {
    var game := CreateSetGame(pick);
    vm := SetGameViewModel(game);
  }

  /** `startNewGame`: the current game is dropped and a fresh one built from
      the same 81 contents, so no selection, match or order of the previous
      game survives. */
  method StartNewGame(vm: SetGameViewModel, pick: nat -> nat) returns (next: SetGameViewModel)
    ensures IsFreshDeck(next.model)
    ensures forall k :: 0 <= k < |next.model.cards| ==> !next.model.cards[k].isSelected && !next.model.cards[k].isMatched
  {
    var game := CreateSetGame(pick);
    next := SetGameViewModel(game);
  }

  /** In a fresh deck no two cards carry the same attribute combination. */
  lemma FreshDeckContentsDistinct(game: Game<Content>)
    requires IsFreshDeck(game)
    ensures forall i, j :: 0 <= i < j < |game.cards| ==> game.cards[i].content != game.cards[j].content
  {
    forall i, j | 0 <= i < j < |game.cards| ensures game.cards[i].content != game.cards[j].content {
      var a, b := game.cards[i], game.cards[j];
      assert a.id != b.id;
      if a.content == b.content {
        assert ContentAt(a.id) == ContentAt(b.id);
        IndexOfContentAt(a.id);
        IndexOfContentAt(b.id);
      }
    }
  }
}
