/**
 The artwork of one displayed card: which source the image element points
 at, whether it has loaded, failed or is still loading, and whether the
 backup source is already in use. A failed primary source falls back to the
 backup once; a second failure leaves the card showing its text layer.
 */
module CardImage {
  import opened Types
  import Runs

  datatype ImageState = Loading | Loaded | Failed

  datatype CardView = CardView(
    card: Option<DrawnCard>,
    currentSrc: string,
    imageState: ImageState,
    usingBackup: bool
  )

  /** The component's state before its first effect has run. */
  function Mounted(card: Option<DrawnCard>): (v: CardView)
    ensures v.card == card && v.currentSrc == "" && v.imageState == Loading && !v.usingBackup
  {
    CardView(card, "", Loading, false)
  }

  /** The effect that runs whenever the card changes: a card restarts loading
      from its primary source; no card leaves the image state alone. */
  function CardChanged(v: CardView, card: Option<DrawnCard>): (r: CardView)
    ensures r.card == card
    ensures card.Some? ==>
      r.currentSrc == card.value.data.image && r.imageState == Loading && !r.usingBackup
    ensures card.None? ==> r == v.(card := card)
  {
    match card
    case Some(c) => CardView(card, c.data.image, Loading, false)
    case None => v.(card := card)
  }

  /** The backup source is worth trying: the primary is in use and the card
      has a non-empty backup locator. */
  predicate CanFallBack(v: CardView) {
    !v.usingBackup && v.card.Some? && v.card.value.data.backupImage != ""
  }

  /** The image element reported a load failure. */
  function LoadFailed(v: CardView): (r: CardView)
    ensures r.card == v.card
    ensures CanFallBack(v) ==>
      r.currentSrc == v.card.value.data.backupImage && r.usingBackup && r.imageState == Loading
    ensures !CanFallBack(v) ==>
      r.imageState == Failed && r.currentSrc == v.currentSrc && r.usingBackup == v.usingBackup
  {
    if CanFallBack(v) then
      v.(currentSrc := v.card.value.data.backupImage, usingBackup := true, imageState := Loading)
    else
      v.(imageState := Failed)
  }

  /** The image element reported a successful load. */
  function LoadSucceeded(v: CardView): (r: CardView)
    ensures r.imageState == Loaded
    ensures r.currentSrc == v.currentSrc && r.usingBackup == v.usingBackup && r.card == v.card
  {
    v.(imageState := Loaded)
  }

  datatype ImageEvent = NewCard(card: Option<DrawnCard>) | Load | Error

  function ImageStep(v: CardView, e: ImageEvent): CardView {
    match e
    case NewCard(c) => CardChanged(v, c)
    case Load => LoadSucceeded(v)
    case Error => LoadFailed(v)
  }

  /** Failure is only reached once there is nothing left to try. */
  predicate Consistent(v: CardView) {
    v.imageState == Failed ==> !CanFallBack(v)
  }

  lemma ImageStepConsistent(v: CardView, e: ImageEvent)
    requires Consistent(v)
    ensures Consistent(ImageStep(v, e))
  {
  }

  /** Further failures after the terminal failure change nothing. */
  lemma FailureAbsorbing(v: CardView)
    requires Consistent(v) && v.imageState == Failed
    ensures LoadFailed(v) == v
  {
  }

  /* ---------------------- at most one fallback ----------------------- */

  /** Load and error events for one card, with no card change in between. */
  predicate SameCard(evs: seq<ImageEvent>) {
    forall k :: 0 <= k < |evs| ==> !evs[k].NewCard?
  }

  /** How many events along a run changed the image source. */
  function SourceSwitches(v: CardView, evs: seq<ImageEvent>): nat
    decreases |evs|
  {
    if evs == [] then 0
    else
      var w := ImageStep(v, evs[0]);
      (if w.currentSrc != v.currentSrc then 1 else 0) + SourceSwitches(w, evs[1..])
  }

  /** Between two changes of the card the source switches at most once, and
      not at all once the backup is in use; the source ends on the one it
      started from or on the backup; the backup, once in use, stays in use. */
  lemma {:induction false} AtMostOneFallback(v: CardView, evs: seq<ImageEvent>)
    requires SameCard(evs)
    ensures Runs.AdmissibleRun(ImageStep, v, evs)
    ensures SourceSwitches(v, evs) <= if v.usingBackup then 0 else 1
    ensures Runs.Run(ImageStep, v, evs).card == v.card
    ensures v.usingBackup ==>
      Runs.Run(ImageStep, v, evs).usingBackup && Runs.Run(ImageStep, v, evs).currentSrc == v.currentSrc
    ensures Runs.Run(ImageStep, v, evs).currentSrc == v.currentSrc ||
      (v.card.Some? && Runs.Run(ImageStep, v, evs).currentSrc == v.card.value.data.backupImage)
    decreases |evs|
  {
    Runs.TotalRun(ImageStep, v, evs);
    if evs != [] {
      var w := ImageStep(v, evs[0]);
      assert SameCard(evs[1..]) by {
        assert forall k :: 0 <= k < |evs| - 1 ==> evs[1..][k] == evs[k + 1];
      }
      AtMostOneFallback(w, evs[1..]);
    }
  }

  /** The card passed in changes whenever the table replaces the drawn card,
      and turning a card face up replaces it with a new record. So a card
      whose primary artwork failed restarts from the primary when it is
      revealed, and can fall back to its backup a second time. */
  lemma RevealRestartsFallback(v: CardView, c: DrawnCard)
    requires v.card == Some(c) && v.currentSrc == c.data.image && !v.usingBackup
    requires c.data.backupImage != "" && c.data.backupImage != c.data.image
    ensures var evs := [Error, NewCard(Some(c.(isRevealed := true))), Error];
      && SourceSwitches(v, evs) == 3
      && Runs.AdmissibleRun(ImageStep, v, evs)
      && Runs.Run(ImageStep, v, evs).usingBackup
      && Runs.Run(ImageStep, v, evs).currentSrc == c.data.backupImage
  {
    var evs := [Error, NewCard(Some(c.(isRevealed := true))), Error];
    var v1 := ImageStep(v, Error);
    var v2 := ImageStep(v1, evs[1]);
    var v3 := ImageStep(v2, Error);
    assert v1.currentSrc == c.data.backupImage && v1.usingBackup;
    assert v2.currentSrc == c.data.image && !v2.usingBackup;
    assert v3.currentSrc == c.data.backupImage;
    assert evs[1..] == [evs[1], Error] && evs[1..][1..] == [Error] && evs[1..][1..][1..] == [];
    assert SourceSwitches(v3, []) == 0;
    assert SourceSwitches(v2, [Error]) == 1;
    assert SourceSwitches(v1, [evs[1], Error]) == 2;
    Runs.RunThree(ImageStep, v, Error, evs[1], Error);
  }

  /* ------------------------------ display ------------------------------- */

  /** The image layer is opaque only once its source has loaded. */
  predicate ImageVisible(v: CardView) {
    v.imageState == Loaded
  }

  /** The text layer (suit, number, name) is drawn for any card. */
  predicate TextLayerShown(v: CardView) {
    v.card.Some?
  }

  /** A card whose artwork failed on every source still shows its text. */
  lemma FailedCardStillRenders(v: CardView)
    requires v.card.Some? && v.imageState == Failed
    ensures !ImageVisible(v) && TextLayerShown(v)
    ensures forall e :: ImageStep(v, e).card.Some? ==> TextLayerShown(ImageStep(v, e))
  {
  }

  /** The face-up flag the component uses: the card is revealed and the
      caller does not ask for its back. */
  function ShownRevealed(card: Option<DrawnCard>, showBack: bool): bool {
    card.Some? && card.value.isRevealed && !showBack
  }

  /** The reversed flag the component uses; false without a card. */
  function ShownReversed(card: Option<DrawnCard>): bool {
    card.Some? && card.value.isReversed
  }

  /** On the table a drawn card is rendered with its back shown until it is
      revealed, so the face-up flag is exactly the card's revealed flag; the
      deck's top card (no card, back shown) is neither face up nor reversed. */
  lemma TableFlags(c: DrawnCard)
    ensures ShownRevealed(Some(c), !c.isRevealed) == c.isRevealed
    ensures ShownReversed(Some(c)) == c.isReversed
    ensures !ShownRevealed(None, true) && !ShownReversed(None)
  {
  }
}
