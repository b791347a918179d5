/** The game state of script.js: the `cards` array (shuffled in place at
    every deal), the card container (`pool`), the drop zones, and the two
    text displays written by `checkAnswers` and cleared by `resetGame`. */
module MatchingGame {
  import opened Wrappers
  import opened Cards
  import opened Shuffle
  import opened Zones
  import opened Scoring
  import opened Strategy

  /** The state invariant on values: every zone keeps the zone invariant,
      and pool and zones together hold exactly the cards of `deal`, as a
      multiset (so none twice when `deal` is the deck). */
  predicate Consistent(b: Board, deal: seq<Card>)
  {
    ZonesOk(b.zones) && Contents(b) == multiset(deal)
  }

  /** Drops keep the state invariant. */
  lemma DropKeepsConsistent(b: Board, deal: seq<Card>, z: nat, dragged: Option<nat>)
    requires Consistent(b, deal)
    requires z < |b.zones| && (dragged.Some? ==> dragged.value < |b.pool|)
    ensures Consistent(Zones.Drop(b, z, dragged), deal)
  {
    DropConserves(b, z, dragged);
    DropKeepsZonesOk(b, z, dragged);
  }

  class Game {
    const cards: array<Card>
    var pool: seq<Card>
    var zones: seq<Zone>
    var scoreDisplay: string
    var feedbackMessage: string

    /** The pool and the zones as a value. */
    function Layout(): Board
      reads this
    {
      Board(pool, zones)
    }

    /** The state invariant, Consistent, of the current state. */
    ghost predicate Valid()
      reads this, cards
    {
      Consistent(Layout(), cards[..])
    }

    /** `cards` holds the deck, in some order. Only a deal changes `cards`,
        so every other operation keeps this without saying so. */
    ghost predicate Arranged()
      reads cards
    {
      multiset(cards[..]) == multiset(Deck())
    }

    /** Initial setup: the deck in declaration order, one empty zone per
        question id of the page's markup, then `createCards`. */
    constructor (zoneIds: seq<int>, picks: seq<nat>)
      requires ValidPicks(picks, |Deck()|)
      ensures Valid() && Arranged() && fresh(cards)
      ensures |zones| == |zoneIds| && forall i :: 0 <= i < |zones| ==> zones[i] == Zone(zoneIds[i], [])
      ensures cards[..] == Shuffled(Deck(), picks) && pool == cards[..]
      ensures scoreDisplay == "" && feedbackMessage == ""
    {
      cards := new Card[|Deck()|](i requires 0 <= i < |Deck()| => Deck()[i]);
      zones := seq(|zoneIds|, i requires 0 <= i < |zoneIds| => Zone(zoneIds[i], []));
      scoreDisplay, feedbackMessage := "", "";
      pool := [];
      new;
      assert cards[..] == Deck();
      PlacedOfEmpty(zones);
      CreateCards(picks);
    }

    /** `createCards`: shuffle `cards` in place, empty the card container and
        deal every card into it in the new order. */
    method CreateCards(picks: seq<nat>)
      requires ValidPicks(picks, cards.Length)
      requires ZonesOk(zones) && Placed(zones) == multiset{}
      modifies this`pool, cards
      ensures cards[..] == Shuffled(old(cards[..]), picks) && pool == cards[..]
      ensures multiset(cards[..]) == multiset(old(cards[..]))
      ensures Valid()
    {
      ShuffleInPlace(cards, picks);
      ghost var dealt := cards[..];
      pool := [];
      for i := 0 to cards.Length
        invariant cards[..] == dealt
        invariant pool == cards[..i]
      {
        pool := pool + [cards[i]];
      }
      assert pool == cards[..];
    }

    /** The `drop` handler of zone `z`; `dragged` is the position in the pool
        of the card being dragged, or `None` when nothing is dragged. */
    method Drop(z: nat, dragged: Option<nat>)
      requires Valid() && z < |zones| && (dragged.Some? ==> dragged.value < |pool|)
      modifies this`pool, this`zones
      ensures Valid()
      ensures Layout() == Zones.Drop(old(Layout()), z, dragged)
    {
      ghost var before := Layout();
      ghost var after := Zones.Drop(before, z, dragged);
      ghost var deal := cards[..];
      DropKeepsConsistent(before, deal, z, dragged);
      if dragged.Some? {
        var k := dragged.value;
        var card := pool[k];
        var existingTypes := Tags(zones[z].held);
        GuardIsAdmits(zones[z], card);
        if |zones[z].held| < 2 && card.kind !in existingTypes {
          assert Admits(before.zones[z], card);
          assert after == Board(RemoveAt(before.pool, k), before.zones[z := Place(before.zones[z], card)]);
          zones := zones[z := Place(zones[z], card)];
          pool := RemoveAt(pool, k);
        } else {
          assert !Admits(before.zones[z], card);
          assert after == before;
        }
      }
      assert Layout() == after && cards[..] == deal;
    }

    /** `checkAnswers`: tally the zones and write the score line and the
        feedback message. Nothing else changes. */
    method CheckAnswers()
      modifies this`scoreDisplay, this`feedbackMessage
      ensures scoreDisplay == ScoreText(CountCorrect(zones))
      ensures feedbackMessage == FeedbackText(|zones| - CountCorrect(zones))
      ensures Layout() == old(Layout()) && (old(Valid()) ==> Valid())
    {
      var score, incorrectCount := Tally(zones);
      scoreDisplay := ScoreText(score);
      feedbackMessage := FeedbackText(incorrectCount);
    }

    /** Remove every dropped card from every zone; the zones keep their
        questions. */
    method ClearZones()
      modifies this`zones
      ensures Cleared(old(zones), zones)
      ensures ZonesOk(zones) && Placed(zones) == multiset{}
    {
      for i := 0 to |zones|
        invariant |zones| == |old(zones)|
        invariant forall j :: 0 <= j < i ==> zones[j] == Zone(old(zones)[j].questionId, [])
        invariant forall j :: i <= j < |zones| ==> zones[j] == old(zones)[j]
      {
        zones := zones[i := Zone(zones[i].questionId, [])];
      }
      PlacedOfEmpty(zones);
    }

    /** `after` is `before` with every zone emptied. */
    static predicate Cleared(before: seq<Zone>, after: seq<Zone>)
    {
      |after| == |before| && forall i :: 0 <= i < |after| ==> after[i] == Zone(before[i].questionId, [])
    }

    /** `resetGame`: clear both displays, empty every zone, and deal again
        with a fresh shuffle. With zones for questions 1, 2, 3 the result is a
        fresh deal, from which 3 / 3 can be reached (Strategy). */
    method Reset(picks: seq<nat>)
      requires Valid() && ValidPicks(picks, cards.Length)
      modifies this`scoreDisplay, this`feedbackMessage, this`zones, this`pool, cards
      ensures Valid()
      ensures scoreDisplay == "" && feedbackMessage == ""
      ensures Cleared(old(zones), zones)
      ensures cards[..] == Shuffled(old(cards[..]), picks) && pool == cards[..]
      ensures multiset(cards[..]) == multiset(old(cards[..]))
      ensures Arranged() && |zones| == 3 && (forall i :: 0 <= i < 3 ==> zones[i].questionId == i + 1)
              ==> Dealt(Layout())
    {
      scoreDisplay := "";
      feedbackMessage := "";
      ClearZones();
      CreateCards(picks);
    }
  }
}
