/**
 Whole sessions as runs of events: the shuffle, the three draws, the reveal
 and the interpretation, composed into one run from the question form to a
 finished reading.
 */
module Scenario {
  import opened Types
  import opened Deck
  import opened Session
  import Oracle
  import Intro
  import Runs

  /** One shuffle tick per deck order. */
  function Ticks(orders: seq<seq<TarotCardData>>): (evs: seq<Event>)
    ensures |evs| == |orders|
    ensures forall i :: 0 <= i < |orders| ==> evs[i] == ShuffleTick(orders[i])
  {
    seq(|orders|, i requires 0 <= i < |orders| => ShuffleTick(orders[i]))
  }

  /** Each shuffle order reorders the catalogue. */
  predicate Reorderings(orders: seq<seq<TarotCardData>>, catalogue: seq<TarotCardData>) {
    forall i :: 0 <= i < |orders| ==> multiset(orders[i]) == multiset(catalogue)
  }

  /** The shuffle phase: ticks that only reorder the deck keep the session
      shuffling until the fifteenth, which opens drawing; nothing but the
      deck order and the tick count changes. */
  lemma {:induction false} ShufflePhase(a: App, orders: seq<seq<TarotCardData>>)
    requires a.state == Shuffling && a.table.Some?
    requires a.table.value.shuffles < MaxShuffles && a.table.value.shuffles + |orders| <= MaxShuffles
    requires Reorderings(orders, a.table.value.deck)
    ensures AdmissibleRun(a, Ticks(orders))
    ensures var b := Run(a, Ticks(orders));
      && b.question == a.question && b.catalogue == a.catalogue && b.table.Some?
      && b.table.value.shuffles == a.table.value.shuffles + |orders|
      && b.state == (if b.table.value.shuffles >= MaxShuffles then Drawing else Shuffling)
      && multiset(b.table.value.deck) == multiset(a.table.value.deck)
      && b.table.value.(deck := a.table.value.deck, shuffles := a.table.value.shuffles) == a.table.value
    decreases |orders|
  {
    var evs := Ticks(orders);
    if orders == [] {
      assert evs == [];
    } else {
      var b := Step(a, evs[0]);
      if |orders| == 1 {
        Runs.RunCons(Step, a, evs[0], []);
        assert [evs[0]] + [] == evs;
      } else {
        assert Reorderings(orders[1..], b.table.value.deck);
        ShufflePhase(b, orders[1..]);
        assert Ticks(orders[1..]) == evs[1..];
        Runs.RunCons(Step, a, evs[0], evs[1..]);
        assert [evs[0]] + evs[1..] == evs;
      }
    }
  }

  /** A tap while drawing with fewer than three cards down draws the card. */
  lemma TapStep(a: App, pick: nat, reversed: bool)
    requires a.state == Drawing && a.table.Some? && |a.table.value.drawn| < SpreadSize
    requires pick < |a.table.value.deck|
    ensures Admissible(a, TapDeck(pick, reversed))
    ensures Step(a, TapDeck(pick, reversed)) == a.(table := Some(DrawCard(a.table.value, pick, reversed)))
  {
  }

  /** The draw phase: three taps take the picked cards out of the deck and
      put them down as Past, Present and Future with the given orientations,
      face down, and the spread then settles into revealing. */
  lemma DrawPhase(a: App, p0: nat, p1: nat, p2: nat, r0: bool, r1: bool, r2: bool)
    requires a.state == Drawing && a.table.Some? && a.table.value.drawn == []
    requires |a.table.value.deck| == 78 && p0 < 78 && p1 < 77 && p2 < 76
    ensures var evs := [TapDeck(p0, r0), TapDeck(p1, r1), TapDeck(p2, r2), SpreadSettled];
      AdmissibleRun(a, evs) &&
      var b := Run(a, evs);
      && b.state == Revealing && b.question == a.question && b.catalogue == a.catalogue
      && b.table.Some? && |b.table.value.drawn| == 3 && |b.table.value.deck| == 75
      && b.table.value.drawn[0] == DrawnCard(a.table.value.deck[p0], Past, r0, false)
      && b.table.value.drawn[1] == DrawnCard(FilterOutIndex(a.table.value.deck, p0)[p1], Present, r1, false)
      && b.table.value.drawn[2] ==
        DrawnCard(FilterOutIndex(FilterOutIndex(a.table.value.deck, p0), p1)[p2], Future, r2, false)
      && b.table.value.(deck := a.table.value.deck, drawn := []) == a.table.value
  {
    var t0 := a.table.value;
    TapStep(a, p0, r0);
    var t1 := DrawCard(t0, p0, r0);
    var a1 := a.(table := Some(t1));
    TapStep(a1, p1, r1);
    var t2 := DrawCard(t1, p1, r1);
    var a2 := a1.(table := Some(t2));
    TapStep(a2, p2, r2);
    var t3 := DrawCard(t2, p2, r2);
    var a3 := a2.(table := Some(t3));
    assert Step(a3, SpreadSettled) == a3.(state := Revealing);
    assert Admissible(a3, SpreadSettled);
    assert t3.drawn[0] == t3.drawn[..2][0] == t2.drawn[0] == t2.drawn[..1][0] == t1.drawn[0];
    assert t3.drawn[1] == t3.drawn[..2][1] == t2.drawn[1];
    Runs.RunFour(Step, a, TapDeck(p0, r0), TapDeck(p1, r1), TapDeck(p2, r2), SpreadSettled);
  }

  /** A reveal tick with cards left to turn turns the next one. */
  lemma RevealStep(a: App)
    requires a.state == Revealing && a.table.Some? && a.table.value.revealed < SpreadSize
    ensures var t := a.table.value;
      Step(a, RevealTick) ==
        a.(table := Some(t.(drawn := RevealCard(t.drawn, t.revealed), revealed := t.revealed + 1)))
  {
  }

  /** The reveal phase: three reveal steps turn every card face up, in
      order, and the reading state opens with nothing else changed. */
  lemma RevealPhase(a: App)
    requires a.state == Revealing && a.table.Some?
    requires |a.table.value.drawn| == 3 && a.table.value.revealed == 0
    ensures var evs := [RevealTick, RevealTick, RevealTick, RevealDone];
      AdmissibleRun(a, evs) &&
      var b := Run(a, evs);
      && b.state == Reading && b.question == a.question && b.catalogue == a.catalogue
      && b.table.Some? && |b.table.value.drawn| == 3 && b.table.value.revealed == 3
      && (forall k :: 0 <= k < 3 ==> b.table.value.drawn[k] == a.table.value.drawn[k].(isRevealed := true))
      && b.table.value.(drawn := a.table.value.drawn, revealed := 0) == a.table.value
  {
    var t0 := a.table.value;
    RevealStep(a);
    var t1 := t0.(drawn := RevealCard(t0.drawn, 0), revealed := 1);
    var a1 := a.(table := Some(t1));
    RevealStep(a1);
    var t2 := t1.(drawn := RevealCard(t1.drawn, 1), revealed := 2);
    var a2 := a1.(table := Some(t2));
    RevealStep(a2);
    var t3 := t2.(drawn := RevealCard(t2.drawn, 2), revealed := 3);
    var a3 := a2.(table := Some(t3));
    assert Step(a3, RevealDone) == a3.(state := Reading);
    assert Admissible(a, RevealTick) && Admissible(a1, RevealTick) && Admissible(a2, RevealTick);
    assert Admissible(a3, RevealDone);
    Runs.RunFour(Step, a, RevealTick, RevealTick, RevealTick, RevealDone);
  }

  /** The interpretation: the reading effect sends one request, and once it
      resolves the reading is the text the service outcome maps to. */
  lemma FetchPhase(a: App, outcome: Oracle.ServiceOutcome)
    requires a.state == Reading && a.table.Some?
    requires a.table.value.reading == "" && !a.table.value.readingLoading
    ensures var evs := [ReadingEffect, ReadingArrived(outcome)];
      AdmissibleRun(a, evs) &&
      var b := Run(a, evs);
      && b.state == Reading && b.question == a.question && b.catalogue == a.catalogue
      && b.table.Some?
      && b.table.value.reading == Oracle.ReadingText(outcome) && b.table.value.reading != ""
      && b.table.value.fetches == a.table.value.fetches + 1 && !b.table.value.readingLoading
      && b.table.value.(reading := "", fetches := a.table.value.fetches) == a.table.value
  {
    assert Admissible(a, ReadingEffect) && Admissible(Step(a, ReadingEffect), ReadingArrived(outcome));
    Runs.RunTwo(Step, a, ReadingEffect, ReadingArrived(outcome));
  }

  /** Submitting a question that is not blank on the question form mounts a
      fresh table dealt from the catalogue and starts shuffling. */
  lemma StartStep(a: App, question: string)
    requires a.state == Intro && a.table.None? && !Intro.Blank(question)
    ensures Admissible(a, SubmitQuestion(question))
    ensures Step(a, SubmitQuestion(question)) ==
      App(Shuffling, question, Some(FreshTable(a.catalogue)), a.catalogue)
  {
    assert Intro.Submit(question) == Some(question);
    assert HandleStart(a, question) == App(Shuffling, question, None, a.catalogue);
  }

  /** From the question form to drawing: the question is accepted, a fresh
      table is mounted and fifteen shuffles open drawing with all 78 cards in
      the deck. */
  lemma OpenToDrawing(a: App, question: string, orders: seq<seq<TarotCardData>>)
    requires a.state == Intro && a.table.None? && |a.catalogue| == 78
    requires !Intro.Blank(question)
    requires |orders| == MaxShuffles && Reorderings(orders, a.catalogue)
    ensures var evs := [SubmitQuestion(question)] + Ticks(orders);
      AdmissibleRun(a, evs) &&
      var b := Run(a, evs);
      && b.state == Drawing && b.question == question && b.catalogue == a.catalogue
      && b.table.Some? && b.table.value.drawn == [] && |b.table.value.deck| == 78
      && b.table.value.revealed == 0 && b.table.value.fetches == 0
      && b.table.value.reading == "" && !b.table.value.readingLoading
  {
    StartStep(a, question);
    var a1 := App(Shuffling, question, Some(FreshTable(a.catalogue)), a.catalogue);
    ShufflePhase(a1, orders);
    var a2 := Run(a1, Ticks(orders));
    assert |a2.table.value.deck| == 78 by {
      assert |multiset(a2.table.value.deck)| == |multiset(a.catalogue)|;
    }
    Runs.RunCons(Step, a, SubmitQuestion(question), Ticks(orders));
  }

  /** The spread is down and face down: three cards in the positions Past,
      Present and Future with the given orientations, nothing revealed and
      nothing requested yet. */
  predicate Dealt(b: App, r0: bool, r1: bool, r2: bool) {
    && b.state == Revealing && b.table.Some?
    && |b.table.value.drawn| == 3 && b.table.value.revealed == 0
    && (forall k :: 0 <= k < 3 ==> b.table.value.drawn[k].position == SpreadPositions[k])
    && b.table.value.drawn[0].isReversed == r0
    && b.table.value.drawn[1].isReversed == r1
    && b.table.value.drawn[2].isReversed == r2
    && b.table.value.fetches == 0 && b.table.value.reading == "" && !b.table.value.readingLoading
  }

  /** The session is finished: the three cards lie face up in the positions
      Past, Present and Future with the given orientations, and the
      interpretation, requested once, is on the panel. */
  predicate Finished(b: App, r0: bool, r1: bool, r2: bool) {
    && b.state == Reading && b.table.Some?
    && |b.table.value.drawn| == 3
    && (forall k :: 0 <= k < 3 ==>
          b.table.value.drawn[k].isRevealed && b.table.value.drawn[k].position == SpreadPositions[k])
    && b.table.value.drawn[0].isReversed == r0
    && b.table.value.drawn[1].isReversed == r1
    && b.table.value.drawn[2].isReversed == r2
    && b.table.value.reading != "" && b.table.value.fetches == 1
  }

  lemma DrawToDealt(a: App, p0: nat, p1: nat, p2: nat, r0: bool, r1: bool, r2: bool)
    requires a.state == Drawing && a.table.Some? && a.table.value.drawn == []
    requires |a.table.value.deck| == 78 && p0 < 78 && p1 < 77 && p2 < 76
    requires a.table.value.revealed == 0 && a.table.value.fetches == 0
    requires a.table.value.reading == "" && !a.table.value.readingLoading
    ensures var evs := [TapDeck(p0, r0), TapDeck(p1, r1), TapDeck(p2, r2), SpreadSettled];
      AdmissibleRun(a, evs) && Dealt(Run(a, evs), r0, r1, r2) && Run(a, evs).question == a.question
  {
    var evs := [TapDeck(p0, r0), TapDeck(p1, r1), TapDeck(p2, r2), SpreadSettled];
    DrawPhase(a, p0, p1, p2, r0, r1, r2);
    var b := Run(a, evs);
    DealtFromDraw(a.table.value, b, r0, r1, r2);
  }

  /** A spread of three face-down cards laid out in order on a table that
      was otherwise untouched is ready to be revealed. */
  lemma DealtFromDraw(t: Table, b: App, r0: bool, r1: bool, r2: bool)
    requires t.revealed == 0 && t.fetches == 0 && t.reading == "" && !t.readingLoading
    requires b.state == Revealing && b.table.Some? && |b.table.value.drawn| == 3
    requires b.table.value.(deck := t.deck, drawn := []) == t
    requires b.table.value.drawn[0].position == Past && b.table.value.drawn[0].isReversed == r0
    requires b.table.value.drawn[1].position == Present && b.table.value.drawn[1].isReversed == r1
    requires b.table.value.drawn[2].position == Future && b.table.value.drawn[2].isReversed == r2
    ensures Dealt(b, r0, r1, r2)
  {
    var u := b.table.value;
    assert u.revealed == t.revealed && u.fetches == t.fetches;
    assert u.reading == t.reading && u.readingLoading == t.readingLoading;
  }

  lemma RevealToReading(a: App, r0: bool, r1: bool, r2: bool, outcome: Oracle.ServiceOutcome)
    requires Dealt(a, r0, r1, r2)
    ensures var evs := [RevealTick, RevealTick, RevealTick, RevealDone] + [ReadingEffect, ReadingArrived(outcome)];
      AdmissibleRun(a, evs) && Finished(Run(a, evs), r0, r1, r2) && Run(a, evs).question == a.question
  {
    var turns := [RevealTick, RevealTick, RevealTick, RevealDone];
    var fetch := [ReadingEffect, ReadingArrived(outcome)];
    RevealPhase(a);
    var a1 := Run(a, turns);
    assert forall k :: 0 <= k < 3 ==> a1.table.value.drawn[k] == a.table.value.drawn[k].(isRevealed := true);
    FetchPhase(a1, outcome);
    Runs.RunAppend(Step, a, turns, fetch);
  }

  /** From drawing to a finished reading. */
  lemma DrawToReading(a: App, p0: nat, p1: nat, p2: nat, r0: bool, r1: bool, r2: bool,
                      outcome: Oracle.ServiceOutcome)
    requires a.state == Drawing && a.table.Some? && a.table.value.drawn == []
    requires |a.table.value.deck| == 78 && p0 < 78 && p1 < 77 && p2 < 76
    requires a.table.value.revealed == 0 && a.table.value.fetches == 0
    requires a.table.value.reading == "" && !a.table.value.readingLoading
    ensures var evs := [TapDeck(p0, r0), TapDeck(p1, r1), TapDeck(p2, r2), SpreadSettled]
        + ([RevealTick, RevealTick, RevealTick, RevealDone] + [ReadingEffect, ReadingArrived(outcome)]);
      AdmissibleRun(a, evs) && Finished(Run(a, evs), r0, r1, r2) && Run(a, evs).question == a.question
  {
    var draws := [TapDeck(p0, r0), TapDeck(p1, r1), TapDeck(p2, r2), SpreadSettled];
    var rest := [RevealTick, RevealTick, RevealTick, RevealDone] + [ReadingEffect, ReadingArrived(outcome)];
    DrawToDealt(a, p0, p1, p2, r0, r1, r2);
    RevealToReading(Run(a, draws), r0, r1, r2, outcome);
    Runs.RunAppend(Step, a, draws, rest);
  }

  /** The events of one whole session, from submitting the question to the
      interpretation arriving. */
  function SessionEvents(question: string, orders: seq<seq<TarotCardData>>,
                         p0: nat, p1: nat, p2: nat, r0: bool, r1: bool, r2: bool,
                         outcome: Oracle.ServiceOutcome): seq<Event>
  {
    ([SubmitQuestion(question)] + Ticks(orders))
      + ([TapDeck(p0, r0), TapDeck(p1, r1), TapDeck(p2, r2), SpreadSettled]
      + ([RevealTick, RevealTick, RevealTick, RevealDone] + [ReadingEffect, ReadingArrived(outcome)]))
  }

  /** A whole session from the question form: a question that is not
      blank, fifteen shuffles, three draws at any admissible indices, the
      reveal and the interpretation end in a reading of three face-up cards in
      the positions Past, Present and Future, with the chosen orientations,
      and a non-empty interpretation fetched once, whatever the service did. */
  lemma WholeSession(a: App, question: string, orders: seq<seq<TarotCardData>>,
                     p0: nat, p1: nat, p2: nat, r0: bool, r1: bool, r2: bool,
                     outcome: Oracle.ServiceOutcome)
    requires a.state == Intro && a.table.None? && |a.catalogue| == 78
    requires !Intro.Blank(question)
    requires |orders| == MaxShuffles && Reorderings(orders, a.catalogue)
    requires p0 < 78 && p1 < 77 && p2 < 76
    ensures var evs := SessionEvents(question, orders, p0, p1, p2, r0, r1, r2, outcome);
      AdmissibleRun(a, evs) && Run(a, evs).question == question && Finished(Run(a, evs), r0, r1, r2)
  {
    var open := [SubmitQuestion(question)] + Ticks(orders);
    var rest := [TapDeck(p0, r0), TapDeck(p1, r1), TapDeck(p2, r2), SpreadSettled]
      + ([RevealTick, RevealTick, RevealTick, RevealDone] + [ReadingEffect, ReadingArrived(outcome)]);
    OpenToDrawing(a, question, orders);
    DrawToReading(Run(a, open), p0, p1, p2, r0, r1, r2, outcome);
    Runs.RunAppend(Step, a, open, rest);
  }
}
