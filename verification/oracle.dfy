/**
 The interpretation gateway: the spread summary and question line that go
 into the request, and the mapping from what the narrative service did to
 the text the reading panel shows. The request itself (persona text, HTTP
 call, JSON decoding) is abstracted into a service outcome.
 */
module Oracle {
  import opened Types
  import opened Text

  const DefaultQuestion: string := "General Guidance"
  const SilentStars: string := "The stars are silent..."
  const ConnectionFailed: string := "The mists have obscured the vision. (Connection failed)"

  function Orientation(isReversed: bool): (o: string)
    ensures o == "Reversed" <==> isReversed
    ensures o == "Upright" <==> !isReversed
  {
    if isReversed then "Reversed" else "Upright"
  }

  /** One summary line: `<i+1>. **<Position>**: <Name> (<Orientation>)`. */
  function CardLine(index: nat, c: DrawnCard): (line: string)
    ensures StartsWith(line, NatToString(index + 1) + ". **" + PositionName(c.position) + "**: ")
    ensures var head := NatToString(index + 1) + ". **" + PositionName(c.position) + "**: ";
      var tail := " (" + Orientation(c.isReversed) + ")";
      && |line| == |head| + |c.data.name| + |tail|
      && line[|head|..|line| - |tail|] == c.data.name
      && line[|line| - |tail|..] == tail
    ensures '\n' !in c.data.name ==> '\n' !in line
  {
    var head := NatToString(index + 1) + ". **" + PositionName(c.position) + "**: ";
    var tail := " (" + Orientation(c.isReversed) + ")";
    var line := head + c.data.name + tail;
    assert line[..|head|] == head;
    assert line[|head|..|line| - |tail|] == c.data.name;
    assert line[|line| - |tail|..] == tail;
    LinePartsNoNewline(index + 1, c.position, c.isReversed);
    line
  }

  /** The fixed parts of a summary line hold no newline. */
  lemma LinePartsNoNewline(n: nat, p: SpreadPosition, isReversed: bool)
    ensures '\n' !in NatToString(n) + ". **" + PositionName(p) + "**: "
    ensures '\n' !in " (" + Orientation(isReversed) + ")"
  {
    var digits := NatToString(n);
    assert forall i :: 0 <= i < |digits| ==> IsDigit(digits[i]);
    assert '\n' !in digits;
  }

  function SummaryLines(cards: seq<DrawnCard>): (lines: seq<string>)
    ensures |lines| == |cards|
    ensures forall i :: 0 <= i < |cards| ==> lines[i] == CardLine(i, cards[i])
  {
    seq(|cards|, i requires 0 <= i < |cards| => CardLine(i, cards[i]))
  }

  /** The card summary: the cards' lines in array order, joined by newlines. */
  function Summary(cards: seq<DrawnCard>): string {
    Join(SummaryLines(cards), "\n")
  }

  /** Splitting the summary at newlines gives back one line per card, in
      order, provided no card name holds a newline. */
  lemma SummaryLinesRecoverable(cards: seq<DrawnCard>)
    requires |cards| > 0
    requires forall i :: 0 <= i < |cards| ==> '\n' !in cards[i].data.name
    ensures |Split(Summary(cards), '\n')| == |cards|
    ensures forall i :: 0 <= i < |cards| ==> Split(Summary(cards), '\n')[i] == CardLine(i, cards[i])
  {
    SplitJoin(SummaryLines(cards), '\n');
  }

  /** `question || "General Guidance"`: the empty question is replaced by
      the default, any other is sent as typed. */
  function QuestionText(question: string): (q: string)
    ensures q != ""
    ensures question != "" ==> q == question
    ensures question == "" ==> q == DefaultQuestion
  {
    if question == "" then DefaultQuestion else question
  }

  /** What the narrative service did with the request. A malformed body or a
      network error both surface as a thrown exception. */
  datatype ServiceOutcome =
    | Ok(content: string)   // success; `content` is empty when the reply carried none
    | NotOk                 // a non-success status
    | Threw                 // fetch or JSON decoding threw

  /** The text `getTarotReading` resolves to for a given service outcome: a
      non-success status is thrown and caught like any other failure, so
      every failure gives the fixed fallback; an empty reply gives the
      silent-stars line. */
  function ReadingText(outcome: ServiceOutcome): (text: string)
    ensures text != ""
    ensures outcome.NotOk? || outcome.Threw? ==> text == ConnectionFailed
    ensures outcome.Ok? && outcome.content != "" ==> text == outcome.content
    ensures outcome.Ok? && outcome.content == "" ==> text == SilentStars
  {
    match outcome
    case NotOk => ConnectionFailed
    case Threw => ConnectionFailed
    case Ok(content) => if content == "" then SilentStars else content
  }
}
