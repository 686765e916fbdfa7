/**
 The records the tarot app passes around: a card of the catalogue, a card
 laid on the table, the spread positions and the lifecycle of a session.
 */
module Types {

  datatype Option<T> = None | Some(value: T)

  datatype Suit = Wands | Cups | Swords | Pentacles | Major

  /** The display name of a suit, as the catalogue spells it. */
  function SuitName(s: Suit): string {
    match s
    case Wands => "Wands"
    case Cups => "Cups"
    case Swords => "Swords"
    case Pentacles => "Pentacles"
    case Major => "Major"
  }

  /** A card's `number` field is a number for the Major Arcana and a rank
      label for the minor suits. */
  datatype CardNumber = Index(n: nat) | Rank(rank: string)

  datatype TarotCardData = TarotCardData(
    id: string,
    name: string,
    number: CardNumber,
    suit: Suit,
    keywords: seq<string>,
    isMajor: bool,
    description: string,
    image: string,        // primary artwork locator
    backupImage: string   // secondary artwork locator
  )

  datatype SpreadPosition = Past | Present | Future

  function PositionName(p: SpreadPosition): string {
    match p
    case Past => "Past"
    case Present => "Present"
    case Future => "Future"
  }

  datatype DrawnCard = DrawnCard(
    data: TarotCardData,
    position: SpreadPosition,
    isReversed: bool,
    isRevealed: bool
  )

  datatype AppState = Intro | Shuffling | Drawing | Revealing | Reading
}
