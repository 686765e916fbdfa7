/**
 One reading session, from the question form to the interpretation, as an
 explicit state machine. The app-level state (lifecycle state and question)
 and the table-level state (deck, drawn cards, reading) live in one record;
 the table exists exactly while the lifecycle is past the question form, and
 is created afresh with the full deck whenever it appears.

 Randomness and timers are inputs: a tap on the deck carries the index the
 random draw picked and the reversal coin, a shuffle tick carries the order
 the shuffle produced, and every timer or effect is an event of its own.
 */
module Session {
  import opened Types
  import opened Deck
  import Oracle
  import Intro
  import Runs

  /** Ticks of the shuffle interval before drawing opens. */
  const MaxShuffles: nat := 15

  /** Cards in a spread. */
  const SpreadSize: nat := 3

  datatype Table = Table(
    deck: seq<TarotCardData>,
    drawn: seq<DrawnCard>,
    reading: string,
    readingLoading: bool,
    shuffles: nat,   // ticks of the shuffle interval so far
    revealed: nat,   // cards the reveal loop has turned face up so far
    fetches: nat     // interpretation requests issued so far
  )

  /** `catalogue` is the card catalogue a newly mounted table deals from;
      the app keeps it fixed, and starts with the full deck. */
  datatype App = App(state: AppState, question: string, table: Option<Table>,
                     catalogue: seq<TarotCardData>)

  /** The app as it starts: the question form with an empty question. */
  function InitialApp(): App {
    App(Intro, "", None, FullDeck)
  }

  /** The table's state when it is mounted: the whole catalogue in the deck,
      nothing drawn, no reading. */
  function FreshTable(catalogue: seq<TarotCardData>): Table {
    Table(catalogue, [], "", false, 0, 0, 0)
  }

  /** The start callback: remember the question and begin shuffling. */
  function HandleStart(a: App, question: string): (r: App)
    ensures r.state == Shuffling && r.question == question && r.table == a.table
  {
    a.(question := question, state := Shuffling)
  }

  /** The reset callback: back to the question form, question cleared. */
  function HandleReset(a: App): (r: App)
    ensures r.state == Intro && r.question == "" && r.table == a.table
  {
    a.(state := Intro, question := "")
  }

  /** Rendering: the question form in `Intro`, the table otherwise. A table
      that was not there before is mounted with fresh state; leaving for the
      question form unmounts it and its state is lost. */
  function Mount(a: App): (r: App)
    ensures r.state == a.state && r.question == a.question && r.catalogue == a.catalogue
    ensures r.table.None? <==> a.state == Intro
    ensures a.state != Intro && a.table.None? ==> r.table == Some(FreshTable(a.catalogue))
    ensures a.state != Intro && a.table.Some? ==> r.table == a.table
  {
    if a.state == Intro then a.(table := None)
    else if a.table.None? then a.(table := Some(FreshTable(a.catalogue)))
    else a
  }

  /* ------------------------------ draw ---------------------------------- */

  /** The deck without the card at `index`; an index outside the deck
      removes nothing. */
  function FilterOutIndex(s: seq<TarotCardData>, index: int): (r: seq<TarotCardData>)
    ensures 0 <= index < |s| ==> r == s[..index] + s[index + 1..]
    ensures !(0 <= index < |s|) ==> r == s
  {
    if s == [] then []
    else
      var rest := FilterOutIndex(s[1..], index - 1);
      assert 0 < index < |s| ==> s[1..][..index - 1] == s[1..index];
      if index == 0 then rest else [s[0]] + rest
  }

  function Cards(drawn: seq<DrawnCard>): (cards: seq<TarotCardData>)
    ensures |cards| == |drawn|
    ensures forall k :: 0 <= k < |drawn| ==> cards[k] == drawn[k].data
  {
    seq(|drawn|, k requires 0 <= k < |drawn| => drawn[k].data)
  }

  /** The deck tap handler: with fewer than three cards down, the card at the
      picked index leaves the deck and joins the spread face down, in the
      position its draw order gives it; otherwise nothing happens. */
  function DrawCard(t: Table, pick: nat, reversed: bool): (r: Table)
    requires |t.drawn| < SpreadSize ==> pick < |t.deck|
    ensures |t.drawn| >= SpreadSize ==> r == t
    ensures |t.drawn| < SpreadSize ==>
      && |r.deck| == |t.deck| - 1
      && r.deck == t.deck[..pick] + t.deck[pick + 1..]
      && |r.drawn| == |t.drawn| + 1
      && r.drawn[..|t.drawn|] == t.drawn
      && r.drawn[|t.drawn|].data == t.deck[pick]
      && r.drawn[|t.drawn|].position == SpreadPositions[|t.drawn|]
      && r.drawn[|t.drawn|].isReversed == reversed
      && !r.drawn[|t.drawn|].isRevealed
    ensures r.reading == t.reading && r.readingLoading == t.readingLoading
    ensures r.shuffles == t.shuffles && r.revealed == t.revealed && r.fetches == t.fetches
  {
    if |t.drawn| >= SpreadSize then t
    else
      var card := t.deck[pick];
      var newCard := DrawnCard(card, SpreadPositions[|t.drawn|], reversed, false);
      var newDrawn := t.drawn + [newCard];
      assert newDrawn[..|t.drawn|] == t.drawn;
      t.(deck := FilterOutIndex(t.deck, pick), drawn := newDrawn)
  }

  /* ------------------------------ reveal -------------------------------- */

  /** Turns the drawn card at `i` face up and leaves the others as they are;
      an index outside the spread changes nothing. */
  function RevealCard(drawn: seq<DrawnCard>, i: nat): (r: seq<DrawnCard>)
    ensures |r| == |drawn|
    ensures forall k :: 0 <= k < |drawn| && k != i ==> r[k] == drawn[k]
    ensures i < |drawn| ==> r[i] == drawn[i].(isRevealed := true)
  {
    if i < |drawn| then drawn[..i] + [drawn[i].(isRevealed := true)] + drawn[i + 1..] else drawn
  }

  /* ------------------------------ events -------------------------------- */

  datatype Event =
    | SubmitQuestion(text: string)                      // the question form is submitted
    | ShuffleTick(shuffled: seq<TarotCardData>)          // one tick of the shuffle interval
    | TapDeck(pick: nat, reversed: bool)                 // a tap on the deck, with the random draw
    | SpreadSettled                                      // the pause after the third draw ends
    | RevealTick                                         // one step of the reveal loop
    | RevealDone                                         // the pause after the last reveal ends
    | ReadingEffect                                      // the reading effect runs
    | ReadingArrived(outcome: Oracle.ServiceOutcome)     // the interpretation call resolves
    | ConcludeRitual                                     // the reset button is pressed

  /** What the random sources guarantee: a shuffle only reorders the deck,
      and the drawn index lies inside the deck. */
  predicate Admissible(a: App, e: Event) {
    match e
    case ShuffleTick(d) => a.table.Some? ==> multiset(d) == multiset(a.table.value.deck)
    case TapDeck(pick, _) =>
      a.table.Some? && a.state == Drawing && |a.table.value.drawn| < SpreadSize ==>
        pick < |a.table.value.deck|
    case _ => true
  }

  /** The reading effect's guard. */
  predicate ShouldFetch(state: AppState, t: Table) {
    state == Reading && t.reading == "" && !t.readingLoading
  }

  /** The reset button is only rendered in the reading state while no
      request is loading. */
  predicate CanReset(a: App) {
    a.state == Reading && a.table.Some? && !a.table.value.readingLoading
  }

  /** Table-level events: the new table and lifecycle state. */
  function TableStep(state: AppState, t: Table, e: Event): (Table, AppState)
    requires e.TapDeck? && state == Drawing && |t.drawn| < SpreadSize ==> e.pick < |t.deck|
  {
    match e
    case ShuffleTick(d) =>
      if state == Shuffling then
        var n := t.shuffles + 1;
        (t.(deck := d, shuffles := n), if n >= MaxShuffles then Drawing else Shuffling)
      else (t, state)
    case TapDeck(pick, reversed) =>
      if state == Drawing then (DrawCard(t, pick, reversed), state) else (t, state)
    case SpreadSettled =>
      if state == Drawing && |t.drawn| == SpreadSize then (t, Revealing) else (t, state)
    case RevealTick =>
      if state == Revealing && t.revealed < SpreadSize then
        (t.(drawn := RevealCard(t.drawn, t.revealed), revealed := t.revealed + 1), state)
      else (t, state)
    case RevealDone =>
      if state == Revealing && t.revealed == SpreadSize then (t, Reading) else (t, state)
    case ReadingEffect =>
      if ShouldFetch(state, t) then (t.(readingLoading := true, fetches := t.fetches + 1), state)
      else (t, state)
    case ReadingArrived(outcome) =>
      if t.readingLoading then
        (t.(reading := Oracle.ReadingText(outcome), readingLoading := false), state)
      else (t, state)
    case _ => (t, state)
  }

  /** The single transition function of the session. */
  function Step(a: App, e: Event): (r: App)
    requires Admissible(a, e)
    // Drawing does nothing outside the drawing state or with three cards down.
    ensures e.TapDeck? && (a.state != Drawing || a.table.None?) ==> r == a
    ensures e.TapDeck? && a.table.Some? && |a.table.value.drawn| >= SpreadSize ==> r == a
    // The lifecycle only moves forward along its path, and only when ready.
    ensures r.state == Shuffling && a.state != Shuffling ==>
      a.state == Intro && e.SubmitQuestion? && !Intro.Blank(e.text) && r.question == e.text
    ensures r.state == Drawing && a.state != Drawing ==>
      a.state == Shuffling && a.table.Some? && a.table.value.shuffles + 1 >= MaxShuffles
    ensures r.state == Revealing && a.state != Revealing ==>
      a.state == Drawing && a.table.Some? && |a.table.value.drawn| == SpreadSize
    ensures r.state == Reading && a.state != Reading ==>
      a.state == Revealing && a.table.Some? && a.table.value.revealed == SpreadSize
    ensures r.state == Intro && a.state != Intro ==>
      CanReset(a) && r == App(Intro, "", None, a.catalogue)
    ensures r.catalogue == a.catalogue
    // An interpretation request is only issued when the effect's guard holds.
    ensures a.table.Some? && r.table.Some? && r.table.value.fetches != a.table.value.fetches ==>
      e.ReadingEffect? && ShouldFetch(a.state, a.table.value) &&
      r.table.value.fetches == a.table.value.fetches + 1
    // The question is only set by starting a session or cleared by a reset.
    ensures r.question != a.question ==> (a.state == Intro && e.SubmitQuestion?) || CanReset(a)
  {
    match e
    case SubmitQuestion(text) =>
      if a.state == Intro then
        match Intro.Submit(text)
        case Some(q) => Mount(HandleStart(a, q))
        case None => a
      else a
    case ConcludeRitual =>
      if CanReset(a) then Mount(HandleReset(a)) else a
    case _ =>
      if a.table.None? then a
      else
        var (t, s) := TableStep(a.state, a.table.value, e);
        App(s, a.question, Some(t), a.catalogue)
  }

  /* ----------------------------- invariant ------------------------------ */

  /** What holds of the table in every reachable state, for a table dealt
      from `catalogue`. */
  predicate TableInvariant(state: AppState, t: Table, catalogue: seq<TarotCardData>) {
    // the deck and the spread together are the catalogue
    && multiset(t.deck + Cards(t.drawn)) == multiset(catalogue)
    && |t.drawn| <= SpreadSize
    // the k-th card drawn sits in the k-th position
    && (forall k :: 0 <= k < |t.drawn| ==> t.drawn[k].position == SpreadPositions[k])
    // exactly the first `revealed` cards are face up
    && t.revealed <= |t.drawn|
    && (forall k :: 0 <= k < |t.drawn| ==> (t.drawn[k].isRevealed <==> k < t.revealed))
    && state != Intro
    && (state == Shuffling ==> |t.drawn| == 0 && t.shuffles < MaxShuffles)
    && (state == Drawing ==> t.revealed == 0)
    && (state == Revealing || state == Reading ==> |t.drawn| == SpreadSize)
    && (state == Reading ==> t.revealed == SpreadSize)
    // the interpretation is requested at most once, and only in `Reading`
    && t.fetches <= 1
    && (state != Reading ==> t.fetches == 0)
    && (t.fetches == 0 ==> t.reading == "" && !t.readingLoading)
    && (t.fetches == 1 ==> (t.readingLoading <==> t.reading == ""))
  }

  predicate Valid(a: App) {
    && (a.table.None? <==> a.state == Intro)
    && (a.state == Intro ==> a.question == "")
    && (a.state != Intro ==> !Intro.Blank(a.question))
    && |a.catalogue| == 78 && Deck.DistinctIds(a.catalogue)
    && (a.table.Some? ==> TableInvariant(a.state, a.table.value, a.catalogue))
  }

  lemma InitialValid()
    ensures Valid(InitialApp())
  {
    DeckLayout();
    DeckIdsDistinct();
  }

  lemma FreshTableValid(catalogue: seq<TarotCardData>)
    ensures TableInvariant(Shuffling, Table(catalogue, [], "", false, 0, 0, 0), catalogue)
  {
    assert catalogue + Cards([]) == catalogue;
  }

  lemma DrawKeepsCatalogue(t: Table, pick: nat, reversed: bool)
    requires |t.drawn| < SpreadSize && pick < |t.deck|
    ensures var r := DrawCard(t, pick, reversed);
      multiset(r.deck + Cards(r.drawn)) == multiset(t.deck + Cards(t.drawn))
  {
    var r := DrawCard(t, pick, reversed);
    assert Cards(r.drawn) == Cards(t.drawn) + [t.deck[pick]];
    assert t.deck == t.deck[..pick] + [t.deck[pick]] + t.deck[pick + 1..];
    calc {
      multiset(r.deck + Cards(r.drawn));
      multiset(t.deck[..pick] + t.deck[pick + 1..]) + multiset(Cards(t.drawn) + [t.deck[pick]]);
      multiset(t.deck[..pick]) + multiset([t.deck[pick]]) + multiset(t.deck[pick + 1..]) + multiset(Cards(t.drawn));
      multiset(t.deck) + multiset(Cards(t.drawn));
    }
  }

  lemma ShufflePreserves(t: Table, d: seq<TarotCardData>, catalogue: seq<TarotCardData>)
    requires TableInvariant(Shuffling, t, catalogue) && multiset(d) == multiset(t.deck)
    ensures var (u, s) := TableStep(Shuffling, t, ShuffleTick(d)); TableInvariant(s, u, catalogue)
  {
    assert multiset(d + Cards(t.drawn)) == multiset(t.deck + Cards(t.drawn));
  }

  lemma DrawPreserves(t: Table, pick: nat, reversed: bool, catalogue: seq<TarotCardData>)
    requires TableInvariant(Drawing, t, catalogue)
    requires |t.drawn| < SpreadSize ==> pick < |t.deck|
    ensures var (u, s) := TableStep(Drawing, t, TapDeck(pick, reversed)); TableInvariant(s, u, catalogue)
  {
    if |t.drawn| < SpreadSize {
      DrawKeepsCatalogue(t, pick, reversed);
      var u := DrawCard(t, pick, reversed);
      forall k | 0 <= k < |u.drawn|
        ensures u.drawn[k].position == SpreadPositions[k]
        ensures u.drawn[k].isRevealed <==> k < u.revealed
      {
        if k < |t.drawn| {
          assert u.drawn[k] == u.drawn[..|t.drawn|][k];
        }
      }
    }
  }

  lemma RevealPreserves(t: Table, catalogue: seq<TarotCardData>)
    requires TableInvariant(Revealing, t, catalogue)
    ensures var (u, s) := TableStep(Revealing, t, RevealTick); TableInvariant(s, u, catalogue)
  {
    if t.revealed < SpreadSize {
      var u := t.(drawn := RevealCard(t.drawn, t.revealed), revealed := t.revealed + 1);
      assert TableStep(Revealing, t, RevealTick) == (u, Revealing);
      RevealNextKeeps(t, catalogue);
    }
  }

  /** Turning the next card face up keeps the table invariant. */
  lemma RevealNextKeeps(t: Table, catalogue: seq<TarotCardData>)
    requires TableInvariant(Revealing, t, catalogue) && t.revealed < SpreadSize
    ensures TableInvariant(Revealing, t.(drawn := RevealCard(t.drawn, t.revealed), revealed := t.revealed + 1), catalogue)
  {
    var d := RevealCard(t.drawn, t.revealed);
    var u := t.(drawn := d, revealed := t.revealed + 1);
    assert Cards(d) == Cards(t.drawn);
    forall k | 0 <= k < |d|
      ensures d[k].position == SpreadPositions[k] && (d[k].isRevealed <==> k < u.revealed)
    {
      if k != t.revealed {
        assert d[k] == t.drawn[k];
      }
    }
  }

  /** Every table-level event keeps the table invariant. */
  lemma TableStepPreserves(state: AppState, t: Table, e: Event, catalogue: seq<TarotCardData>)
    requires TableInvariant(state, t, catalogue)
    requires e.ShuffleTick? ==> multiset(e.shuffled) == multiset(t.deck)
    requires e.TapDeck? && state == Drawing && |t.drawn| < SpreadSize ==> e.pick < |t.deck|
    ensures var (u, s) := TableStep(state, t, e); TableInvariant(s, u, catalogue)
  {
    match e
    case ShuffleTick(d) =>
      if state == Shuffling { ShufflePreserves(t, d, catalogue); }
    case TapDeck(pick, reversed) =>
      if state == Drawing { DrawPreserves(t, pick, reversed, catalogue); }
    case RevealTick =>
      if state == Revealing { RevealPreserves(t, catalogue); }
    case _ =>
  }

  /** Every event keeps the invariant. */
  lemma StepPreservesValid(a: App, e: Event)
    requires Valid(a) && Admissible(a, e)
    ensures Valid(Step(a, e))
  {
    match e
    case SubmitQuestion(text) =>
      if a.state == Intro && Intro.Submit(text).Some? {
        FreshTableValid(a.catalogue);
      }
    case ConcludeRitual =>
    case _ =>
      if a.table.Some? {
        TableStepPreserves(a.state, a.table.value, e, a.catalogue);
      }
  }

  /* ---------------------------- consequences ---------------------------- */

  lemma RemoveAtMultiset(b: seq<TarotCardData>, k: nat)
    requires k < |b|
    ensures multiset(b[..k] + b[k + 1..]) == multiset(b) - multiset{b[k]}
  {
    assert b == b[..k] + [b[k]] + b[k + 1..];
  }

  lemma RemoveAtDistinct(b: seq<TarotCardData>, k: nat)
    requires k < |b| && Deck.DistinctIds(b)
    ensures Deck.DistinctIds(b[..k] + b[k + 1..])
    ensures forall y :: y in multiset(b[..k] + b[k + 1..]) ==> y.id != b[k].id
  {
    var c := b[..k] + b[k + 1..];
    assert forall m :: 0 <= m < |c| ==> c[m] == b[if m < k then m else m + 1];
    forall y | y in multiset(c) ensures y.id != b[k].id {
      assert y in c;
      var m :| 0 <= m < |c| && c[m] == y;
      assert c[m] == b[if m < k then m else m + 1];
    }
  }

  lemma ConsDistinct(x: TarotCardData, s: seq<TarotCardData>)
    requires Deck.DistinctIds(s)
    requires forall y :: y in multiset(s) ==> y.id != x.id
    ensures Deck.DistinctIds([x] + s)
  {
    var c := [x] + s;
    forall i, j | 0 <= i < j < |c| ensures c[i].id != c[j].id {
      assert c[j] == s[j - 1];
      if i == 0 {
        assert c[j] in multiset(s);
      } else {
        assert c[i] == s[i - 1];
      }
    }
  }

  /** Reordering a catalogue keeps its ids distinct. */
  lemma {:induction false} DistinctIdsByMultiset(a: seq<TarotCardData>, b: seq<TarotCardData>)
    requires multiset(a) == multiset(b) && Deck.DistinctIds(b)
    ensures Deck.DistinctIds(a)
    decreases |a|
  {
    if a != [] {
      var x, tail := a[0], a[1..];
      assert a == [x] + tail;
      assert multiset(a) == multiset{x} + multiset(tail);
      assert x in multiset(b);
      var k :| 0 <= k < |b| && b[k] == x;
      var rest := b[..k] + b[k + 1..];
      RemoveAtMultiset(b, k);
      RemoveAtDistinct(b, k);
      assert multiset(tail) == multiset(rest);
      DistinctIdsByMultiset(tail, rest);
      ConsDistinct(x, tail);
    }
  }

  /** For a table dealt from a catalogue with distinct ids: no card is drawn
      twice and no drawn card is still in the deck. */
  lemma DealtCardsDistinct(t: Table, catalogue: seq<TarotCardData>)
    requires multiset(t.deck + Cards(t.drawn)) == multiset(catalogue) && Deck.DistinctIds(catalogue)
    ensures |t.deck| + |t.drawn| == |catalogue|
    ensures forall i, j :: 0 <= i < j < |t.drawn| ==> t.drawn[i].data.id != t.drawn[j].data.id
    ensures forall i, j :: 0 <= i < |t.drawn| && 0 <= j < |t.deck| ==> t.drawn[i].data.id != t.deck[j].id
  {
    var all := t.deck + Cards(t.drawn);
    assert |multiset(all)| == |multiset(catalogue)|;
    DistinctIdsByMultiset(all, catalogue);
    forall i, j | 0 <= i < j < |t.drawn| ensures t.drawn[i].data.id != t.drawn[j].data.id {
      assert all[|t.deck| + i] == t.drawn[i].data && all[|t.deck| + j] == t.drawn[j].data;
    }
    forall i, j | 0 <= i < |t.drawn| && 0 <= j < |t.deck| ensures t.drawn[i].data.id != t.deck[j].id {
      assert all[j] == t.deck[j] && all[|t.deck| + i] == t.drawn[i].data;
    }
  }

  /** In every state with a table: 78 cards between deck and spread, at most
      three drawn, no card drawn twice, no drawn card still in the deck, and
      the positions follow the draw order. */
  lemma TableFacts(a: App)
    requires Valid(a) && a.table.Some?
    ensures var t := a.table.value;
      && |t.deck| + |t.drawn| == 78
      && |t.drawn| <= SpreadSize
      && (forall i, j :: 0 <= i < j < |t.drawn| ==> t.drawn[i].data.id != t.drawn[j].data.id)
      && (forall i, j :: 0 <= i < |t.drawn| && 0 <= j < |t.deck| ==> t.drawn[i].data.id != t.deck[j].id)
      && (forall k :: 0 <= k < |t.drawn| ==> t.drawn[k].position == SpreadPositions[k])
  {
    DealtCardsDistinct(a.table.value, a.catalogue);
  }

  /** Cards already on the table keep their card, position and orientation
      through every event that keeps the table, and a face-up card stays face
      up; the spread only grows. */
  lemma StepKeepsDrawnCards(a: App, e: Event)
    requires Admissible(a, e)
    requires a.table.Some? && Step(a, e).table.Some?
    ensures var t := a.table.value; var u := Step(a, e).table.value;
      && |t.drawn| <= |u.drawn|
      && (forall k :: 0 <= k < |t.drawn| ==>
            u.drawn[k].data == t.drawn[k].data
            && u.drawn[k].position == t.drawn[k].position
            && u.drawn[k].isReversed == t.drawn[k].isReversed
            && (t.drawn[k].isRevealed ==> u.drawn[k].isRevealed))
  {
    var t := a.table.value;
    var u := Step(a, e).table.value;
    match e
    case TapDeck(pick, reversed) =>
      if a.state == Drawing && |t.drawn| < SpreadSize {
        assert u == DrawCard(t, pick, reversed);
        assert forall k :: 0 <= k < |t.drawn| ==> u.drawn[k] == u.drawn[..|t.drawn|][k];
      } else {
        assert u == t;
      }
    case RevealTick =>
      if a.state == Revealing && t.revealed < SpreadSize {
        assert u.drawn == RevealCard(t.drawn, t.revealed);
      } else {
        assert u == t;
      }
    case SubmitQuestion(_) =>
      assert u == t;
    case ConcludeRitual =>
      assert u == t;
    case _ =>
      assert u.drawn == t.drawn;
  }

  /** The reveal step turns exactly the next card face up and leaves the
      others alone, so cards are revealed in the order 0, 1, 2. */
  lemma RevealInOrder(t: Table, catalogue: seq<TarotCardData>)
    requires TableInvariant(Revealing, t, catalogue) && t.revealed < SpreadSize
    ensures var u := TableStep(Revealing, t, RevealTick).0;
      && u.drawn[t.revealed].isRevealed && !t.drawn[t.revealed].isRevealed
      && (forall k :: 0 <= k < |t.drawn| && k != t.revealed ==> u.drawn[k] == t.drawn[k])
      && (forall k :: 0 <= k < t.revealed ==> t.drawn[k].isRevealed)
      && (forall k :: t.revealed < k < |t.drawn| ==> !u.drawn[k].isRevealed)
      && u.revealed == t.revealed + 1
  {
  }

  /** The reading state is only ever seen with all three cards face up. */
  lemma ReadingHasFullSpread(a: App)
    requires Valid(a) && a.state == Reading
    ensures var t := a.table.value;
      |t.drawn| == SpreadSize && forall k :: 0 <= k < SpreadSize ==> t.drawn[k].isRevealed
  {
  }

  /** Once the interpretation call has resolved the reading is not empty,
      whatever the service did. */
  lemma ReadingNonEmptyAfterFetch(a: App)
    requires Valid(a) && a.table.Some? && a.table.value.fetches == 1 && !a.table.value.readingLoading
    ensures a.state == Reading && a.table.value.reading != ""
  {
  }

  /** The spread summary sent with the request lists the cards as Past,
      Present, Future, numbered 1 to 3. */
  lemma SummaryInPositionOrder(a: App)
    requires Valid(a) && a.state == Reading
    ensures var lines := Oracle.SummaryLines(a.table.value.drawn);
      |lines| == 3 &&
      forall k :: 0 <= k < 3 ==>
        Text.StartsWith(lines[k],
          Text.NatToString(k + 1) + ". **" + PositionName(SpreadPositions[k]) + "**: ")
  {
  }

  /** The question sent with the request is the one typed: a session never
      runs with a blank question, so the default is never used. */
  lemma QuestionSentAsTyped(a: App)
    requires Valid(a) && a.state == Reading
    ensures Oracle.QuestionText(a.question) == a.question
  {
    assert Intro.Blank("");
  }

  /** Resetting from a finished reading discards the table and the
      question, back to the state the app started in. */
  lemma ResetDiscardsTable(a: App)
    requires Valid(a) && CanReset(a)
    ensures Step(a, ConcludeRitual) == App(Intro, "", None, a.catalogue)
    ensures Valid(Step(a, ConcludeRitual))
  {
  }

  /** Starting from the question form mounts a fresh table: the whole
      catalogue in the deck, nothing drawn, no reading, with the new
      question. */
  lemma StartMountsFreshTable(a: App, question: string)
    requires Valid(a) && a.state == Intro && !Intro.Blank(question)
    ensures Step(a, SubmitQuestion(question)) ==
      App(Shuffling, question, Some(FreshTable(a.catalogue)), a.catalogue)
    ensures |Step(a, SubmitQuestion(question)).table.value.deck| == 78
  {
  }

  /** An interpretation that arrives with no request out of this table is
      dropped: after a reset there is no table to write into, and a table
      mounted since has not asked yet. */
  lemma StaleArrivalIgnored(a: App, outcome: Oracle.ServiceOutcome)
    requires Valid(a) && (a.table.None? || a.table.value.fetches == 0)
    ensures Step(a, ReadingArrived(outcome)) == a
  {
    assert a.table.Some? ==> !a.table.value.readingLoading;
    ArrivalWhenIdle(a, outcome);
  }

  /** With no request loading, an arrival changes nothing. */
  lemma ArrivalWhenIdle(a: App, outcome: Oracle.ServiceOutcome)
    requires a.table.Some? ==> !a.table.value.readingLoading
    ensures Step(a, ReadingArrived(outcome)) == a
  {
  }

  /** A reset never happens while a request is in flight: either none was
      made (the panel can render before the reading effect runs) or its
      answer is already on the panel. */
  lemma ResetOnlyWhenSettled(a: App)
    requires Valid(a) && CanReset(a)
    ensures a.table.value.fetches == 0 || a.table.value.reading != ""
  {
  }

  /* -------------------------------- runs -------------------------------- */

  /** Every event of the run is admissible where it happens. */
  ghost predicate AdmissibleRun(a: App, evs: seq<Event>) {
    Runs.AdmissibleRun(Step, a, evs)
  }

  /** The state a sequence of events leads to. */
  function Run(a: App, evs: seq<Event>): App
    requires AdmissibleRun(a, evs)
  {
    Runs.Run(Step, a, evs)
  }

  /** Any admissible run from a valid state ends in a valid state; in
      particular the interpretation is requested at most once per table. */
  lemma {:induction false} RunPreservesValid(a: App, evs: seq<Event>)
    requires Valid(a) && AdmissibleRun(a, evs)
    ensures Valid(Run(a, evs))
    ensures Run(a, evs).table.Some? ==> Run(a, evs).table.value.fetches <= 1
    decreases |evs|
  {
    if evs != [] {
      StepPreservesValid(a, evs[0]);
      RunPreservesValid(Step(a, evs[0]), evs[1..]);
    }
  }

  /** The reading effect, run `n` times in a row. */
  function Effects(n: nat): (evs: seq<Event>)
    ensures |evs| == n
  {
    if n == 0 then [] else [ReadingEffect] + Effects(n - 1)
  }

  /** Outside the guard the reading effect changes nothing. */
  lemma EffectIdle(a: App)
    requires !(a.table.Some? && ShouldFetch(a.state, a.table.value))
    ensures Step(a, ReadingEffect) == a
  {
  }

  /** However often the reading effect runs, a table issues at most one
      request: once a request is out, the guard stays false. */
  lemma {:induction false} FetchAtMostOnce(a: App, n: nat)
    requires Valid(a) && a.table.Some? && a.table.value.fetches == 1
    ensures AdmissibleRun(a, Effects(n))
    ensures Run(a, Effects(n)) == a
    decreases n
  {
    if n > 0 {
      EffectIdle(a);
      assert Admissible(a, ReadingEffect);
      FetchAtMostOnce(a, n - 1);
      assert Effects(n)[0] == ReadingEffect && Effects(n)[1..] == Effects(n - 1);
    }
  }
}
