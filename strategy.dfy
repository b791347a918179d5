/** A 3 / 3 result can be reached by the drop rule from every deal: taking
    the first card of the pool and dropping it on the zone of its question,
    again and again, is always accepted and ends with every zone correct. */
module Strategy {
  import opened Wrappers
  import opened Cards
  import opened Zones
  import opened Scoring

  /** A fresh deal: the three zones for questions 1, 2, 3 are empty and the
      pool holds the whole deck, in any order. */
  predicate Dealt(b: Board)
  {
    |b.zones| == 3 &&
    (forall i :: 0 <= i < 3 ==> b.zones[i] == Zone(i + 1, [])) &&
    multiset(b.pool) == multiset(Deck())
  }

  /** What holds while cards are sorted by question: zone `i` stands for
      question `i + 1` and holds only cards of that question, the zone
      invariant holds, and the board holds exactly the deck. */
  predicate Sorting(b: Board)
  {
    |b.zones| == 3 &&
    (forall i :: 0 <= i < 3 ==> b.zones[i].questionId == i + 1) &&
    (forall i, k :: 0 <= i < 3 && 0 <= k < |b.zones[i].held| ==> b.zones[i].held[k].questionId == i + 1) &&
    ZonesOk(b.zones) &&
    Contents(b) == multiset(Deck())
  }

  /** Drop the first pool card on the zone of its question until the pool is
      empty (or a drop is refused, which the lemmas below rule out). */
  function SortByQuestion(b: Board): Board
    decreases |b.pool|
  {
    if b.pool == [] then b
    else
      var z := b.pool[0].questionId - 1;
      if 0 <= z < |b.zones| then
        var b' := Drop(b, z, Some(0));
        if |b'.pool| < |b.pool| then SortByQuestion(b') else b
      else b
  }

  /** A card of the pool is a deck card that lies on no zone. */
  lemma PoolCardIsFree(b: Board, c: Card)
    requires Contents(b) == multiset(Deck())
    requires c in b.pool
    ensures c in Deck() && c !in Placed(b.zones)
  {
    DeckHasNoDuplicates(c);
  }

  /** A card lying on a zone is a deck card. */
  lemma HeldCardIsDealt(b: Board, i: nat, k: nat)
    requires Contents(b) == multiset(Deck())
    requires i < |b.zones| && k < |b.zones[i].held|
    ensures b.zones[i].held[k] in Deck() && b.zones[i].held[k] in Placed(b.zones)
  {
    HeldWithinPlaced(b.zones, i);
    assert b.zones[i].held[k] in multiset(b.zones[i].held);
  }

  /** While sorting, the zone of the first pool card's question admits it. */
  lemma SortAdmits(b: Board)
    requires Sorting(b) && b.pool != []
    ensures 1 <= b.pool[0].questionId <= 3
    ensures Admits(b.zones[b.pool[0].questionId - 1], b.pool[0])
  {
    var c := b.pool[0];
    PoolCardIsFree(b, c);
    DeckQuestion(c);
    var z := c.questionId - 1;
    var held := b.zones[z].held;
    forall k | 0 <= k < |held|
      ensures held[k].kind != c.kind
    {
      HeldCardIsDealt(b, z, k);
      if held[k].kind == c.kind {
        DeckUnique(held[k], c);
      }
    }
    RoomForOtherKind(b.zones[z], c);
  }

  /** Dropping a card of question `z + 1` on zone `z` keeps every zone
      holding only cards of its own question. */
  lemma DropKeepsQuestionsApart(b: Board, z: nat)
    requires Sorting(b) && b.pool != [] && z < 3 && b.pool[0].questionId == z + 1
    requires Admits(b.zones[z], b.pool[0])
    ensures var b' := Drop(b, z, Some(0));
            forall i, k :: 0 <= i < 3 && 0 <= k < |b'.zones[i].held| ==> b'.zones[i].held[k].questionId == i + 1
  {
    var b' := Drop(b, z, Some(0));
    var held := b.zones[z].held;
    DropMovesCard(b, z, 0);
    forall i, k | 0 <= i < 3 && 0 <= k < |b'.zones[i].held|
      ensures b'.zones[i].held[k].questionId == i + 1
    {
      if i == z && k < |held| {
        assert b'.zones[i].held[k] == held[k];
      }
    }
  }

  /** While sorting, the drop of the first pool card on its question's zone
      is accepted, and sorting goes on holding afterwards. */
  lemma SortStep(b: Board)
    requires Sorting(b) && b.pool != []
    ensures 1 <= b.pool[0].questionId <= 3
    ensures Accepted(b, b.pool[0].questionId - 1, Some(0))
    ensures Sorting(Drop(b, b.pool[0].questionId - 1, Some(0)))
  {
    SortAdmits(b);
    var z := b.pool[0].questionId - 1;
    DropKeepsQuestionsApart(b, z);
    DropKeepsZonesOk(b, z, Some(0));
    DropConserves(b, z, Some(0));
  }

  /** When sorting has emptied the pool, every zone is correct. */
  lemma SortEnd(b: Board)
    requires Sorting(b) && b.pool == []
    ensures forall i :: 0 <= i < 3 ==> ZoneCorrect(b.zones[i])
  {
    forall i | 0 <= i < 3
      ensures ZoneCorrect(b.zones[i])
    {
      ZoneEndsCorrect(b, i);
    }
  }

  /** Zone `i` ends holding both cards of question `i + 1`, hence correct. */
  lemma ZoneEndsCorrect(b: Board, i: nat)
    requires Sorting(b) && b.pool == [] && i < 3
    ensures ZoneCorrect(b.zones[i])
  {
    var u, d := CardFor(i + 1, Udl), CardFor(i + 1, Di);
    OnItsQuestionsZone(b, u);
    OnItsQuestionsZone(b, d);
    assert ZoneOk(b.zones[i]);
  }

  /** Once the pool is empty, each deck card lies on the zone of its question. */
  lemma OnItsQuestionsZone(b: Board, c: Card)
    requires Sorting(b) && b.pool == [] && c in Deck()
    ensures 1 <= c.questionId <= 3 && c in b.zones[c.questionId - 1].held
  {
    DeckQuestion(c);
    assert Placed(b.zones) == multiset(Deck());
    assert c in multiset(Deck());
    PlacedHas(b.zones, c);
    var j :| 0 <= j < |b.zones| && c in b.zones[j].held;
    var k :| 0 <= k < |b.zones[j].held| && b.zones[j].held[k] == c;
    assert c.questionId == j + 1;
  }

  /** From any state of the sorting, the sorting strategy uses up the pool
      with accepted drops only and leaves a 3 / 3 board. */
  lemma {:induction false} SortingWins(b: Board)
    requires Sorting(b)
    ensures SortByQuestion(b).pool == []
    ensures CountCorrect(SortByQuestion(b).zones) == TotalPossibleMatches
    decreases |b.pool|
  {
    if b.pool == [] {
      SortEnd(b);
      AllCorrectIff(b.zones);
    } else {
      SortStep(b);
      var b' := Drop(b, b.pool[0].questionId - 1, Some(0));
      assert SortByQuestion(b) == SortByQuestion(b');
      SortingWins(b');
    }
  }

  /** Every fresh deal can be played to 3 / 3 and the all-correct message. */
  lemma FreshDealIsWinnable(b: Board)
    requires Dealt(b)
    ensures SortByQuestion(b).pool == []
    ensures CountCorrect(SortByQuestion(b).zones) == TotalPossibleMatches
    ensures FeedbackText(|b.zones| - CountCorrect(SortByQuestion(b).zones)) == AllCorrectMessage
  {
    PlacedOfEmpty(b.zones);
    assert Sorting(b);
    SortingWins(b);
  }
}
