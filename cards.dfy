/** The six cards of the game (script.js, the `cards` array). Only what the
    rules look at is kept: the id, the category tag and the question a card
    belongs to. Display name and description are rendering only. */
module Cards {

  /** The two category tags, `type: 'udl'` and `type: 'di'` in script.js. */
  datatype Kind = Udl | Di

  /** The six card ids; IdText gives the string the page uses. */
  datatype CardId = UdlRep | UdlEng | UdlExp | DiCon | DiPro | DiProd

  function IdText(id: CardId): string
  {
    match id
    case UdlRep => "udl-rep"
    case UdlEng => "udl-eng"
    case UdlExp => "udl-exp"
    case DiCon => "di-con"
    case DiPro => "di-pro"
    case DiProd => "di-prod"
  }

  datatype Card = Card(id: CardId, kind: Kind, questionId: int)

  /** The deck in the order script.js declares it. */
  function Deck(): seq<Card>
  {
    [ Card(UdlRep, Udl, 1),
      Card(UdlEng, Udl, 2),
      Card(UdlExp, Udl, 3),
      Card(DiCon, Di, 1),
      Card(DiPro, Di, 2),
      Card(DiProd, Di, 3) ]
  }

  /** The deck card with question `q` and tag `k`: the deck has one for each. */
  function CardFor(q: int, k: Kind): (c: Card)
    requires 1 <= q <= 3
    ensures c in Deck() && c.questionId == q && c.kind == k
  {
    match k
    case Udl => Deck()[q - 1]
    case Di => Deck()[q + 2]
  }

  /** The deck's shape: six cards with distinct ids, every question id in
      1..3, and no two cards sharing both question and tag. Together with
      CardFor this says each question has exactly one card of each tag. */
  lemma DeckShape()
    ensures |Deck()| == 6
    ensures forall i, j :: 0 <= i < j < |Deck()| ==> IdText(Deck()[i].id) != IdText(Deck()[j].id)
    ensures forall c :: c in Deck() ==> 1 <= c.questionId <= 3
    ensures forall i, j :: 0 <= i < j < |Deck()| && Deck()[i].questionId == Deck()[j].questionId
                           ==> Deck()[i].kind != Deck()[j].kind
  {
  }

  /** Every deck card belongs to one of the questions 1, 2, 3. */
  lemma DeckQuestion(c: Card)
    requires c in Deck()
    ensures 1 <= c.questionId <= 3
  {
  }

  /** A deck card is determined by its question and its tag. */
  lemma DeckUnique(c: Card, d: Card)
    requires c in Deck() && d in Deck()
    requires c.questionId == d.questionId && c.kind == d.kind
    ensures c == d
  {
  }

  /** No card occurs twice in the deck. */
  lemma DeckHasNoDuplicates(c: Card)
    ensures multiset(Deck())[c] <= 1
  {
  }
}
