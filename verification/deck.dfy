/**
 The card catalogue: 22 Major Arcana followed by the 14 ranks of Wands,
 Cups, Swords and Pentacles, each card carrying a primary artwork URL
 (a numbered file on one host) and a backup URL (a name slug on another).
 */
module Deck {
  import opened Types
  import opened Text

  const MajorArcanaNames: seq<string> := [
    "The Fool", "The Magician", "The High Priestess", "The Empress", "The Emperor",
    "The Hierophant", "The Lovers", "The Chariot", "Strength", "The Hermit",
    "Wheel of Fortune", "Justice", "The Hanged Man", "Death", "Temperance",
    "The Devil", "The Tower", "The Star", "The Moon", "The Sun",
    "Judgement", "The World"
  ]

  const Suits: seq<Suit> := [Wands, Cups, Swords, Pentacles]

  const Ranks: seq<string> :=
    ["Ace", "2", "3", "4", "5", "6", "7", "8", "9", "10", "Page", "Knight", "Queen", "King"]

  const PrimaryBaseUrl: string := "https://cdn.jsdelivr.net/gh/ekelen/tarot-api/static/cards/"

  const BackupBaseUrl: string := "https://www.trustedtarot.com/img/cards/"

  /** The suit-name-to-code table of the primary host. */
  const SuitCodes: seq<(string, string)> :=
    [("Wands", "wa"), ("Cups", "cu"), ("Swords", "sw"), ("Pentacles", "pe")]

  /** Numerals and their words, in the order the replacement loop visits them. */
  const NumberWords: seq<(string, string)> := [
    ("2", "two"), ("3", "three"), ("4", "four"), ("5", "five"), ("6", "six"),
    ("7", "seven"), ("8", "eight"), ("9", "nine"), ("10", "ten")
  ]

  const SpreadPositions: seq<SpreadPosition> := [Past, Present, Future]

  /* ----------------------------- primary URL ----------------------------- */

  /** Looks a key up in a table of pairs; the first matching entry wins. */
  function Lookup(table: seq<(string, string)>, key: string): (r: Option<string>)
    ensures r.Some? <==> exists k :: 0 <= k < |table| && table[k].0 == key
    ensures r.Some? ==> exists k :: 0 <= k < |table| && table[k] == (key, r.value)
  {
    if table == [] then None
    else if table[0].0 == key then Some(table[0].1)
    else
      var r := Lookup(table[1..], key);
      assert forall k :: 0 < k < |table| ==> table[k] == table[1..][k - 1];
      r
  }

  /** The primary host's code for a suit name; a name outside the table
      falls back to the wands code. */
  function SuitPrefix(suit: string): string {
    match Lookup(SuitCodes, suit)
    case Some(code) => code
    case None => "wa"
  }

  lemma SuitPrefixCodes(suit: string)
    ensures suit == "Wands" ==> SuitPrefix(suit) == "wa"
    ensures suit == "Cups" ==> SuitPrefix(suit) == "cu"
    ensures suit == "Swords" ==> SuitPrefix(suit) == "sw"
    ensures suit == "Pentacles" ==> SuitPrefix(suit) == "pe"
    ensures suit !in {"Wands", "Cups", "Swords", "Pentacles"} ==> SuitPrefix(suit) == "wa"
  {
    if suit !in {"Wands", "Cups", "Swords", "Pentacles"} {
      assert forall k :: 0 <= k < |SuitCodes| ==> SuitCodes[k].0 != suit;
    }
  }

  /** The primary artwork URL: `ar` and the two-digit index for a major card,
      the suit code and the two-digit rank number (counted from 1) otherwise. */
  function PrimaryImage(isMajor: bool, suit: string, rankIndex: nat, majorIndex: nat): (url: string)
    ensures isMajor && majorIndex < 100 ==>
      url == PrimaryBaseUrl + "ar" + TwoDigits(majorIndex) + ".jpg"
    ensures !isMajor && rankIndex + 1 < 100 ==>
      url == PrimaryBaseUrl + SuitPrefix(suit) + TwoDigits(rankIndex + 1) + ".jpg"
  {
    if isMajor then
      PaddedTwoDigits(majorIndex);
      PrimaryBaseUrl + "ar" + PadStartZero(NatToString(majorIndex), 2) + ".jpg"
    else
      PaddedTwoDigits(rankIndex + 1);
      PrimaryBaseUrl + SuitPrefix(suit) + PadStartZero(NatToString(rankIndex + 1), 2) + ".jpg"
  }

  /* ------------------------------ backup URL ----------------------------- */

  /** The numeral-to-word loop: the first numeral `d` such that the name
      starts with `d` and a space has its first occurrence replaced by its
      word, and the loop stops there. */
  function ReplaceLeadingNumeral(s: string, words: seq<(string, string)>): string
  {
    if words == [] then s
    else if StartsWith(s, words[0].0 + " ") then ReplaceFirst(s, words[0].0, words[0].1)
    else ReplaceLeadingNumeral(s, words[1..])
  }

  /** The name slug of the backup host: lower case, a leading numeral
      spelled out, whitespace runs turned into hyphens. */
  function BackupSlug(name: string): string {
    HyphenateWhitespace(ReplaceLeadingNumeral(ToLower(name), NumberWords))
  }

  function BackupImage(name: string): (url: string)
    ensures StartsWith(url, BackupBaseUrl)
    ensures url[|BackupBaseUrl|..] == BackupSlug(name) + ".png"
  {
    var url := BackupBaseUrl + BackupSlug(name) + ".png";
    assert url[..|BackupBaseUrl|] == BackupBaseUrl;
    url
  }

  predicate StartsWithNumeral(s: string, k: nat)
    requires k < |NumberWords|
  {
    StartsWith(s, NumberWords[k].0 + " ")
  }

  /** Which numeral a string starts with is read off its first character. */
  lemma NumeralDeterminedByPrefix(s: string)
    ensures forall k :: 0 <= k < |NumberWords| && StartsWithNumeral(s, k) ==>
      k == if s[0] == '1' then 8 else s[0] as int - '2' as int
  {
    forall k | 0 <= k < |NumberWords| && StartsWithNumeral(s, k)
      ensures k == if s[0] == '1' then 8 else s[0] as int - '2' as int
    {
      var a := NumberWords[k].0 + " ";
      assert s[0] == a[0];
    }
  }

  /** No string starts with two different numerals of the table followed by
      a space, so at most one replacement can ever apply. */
  lemma NumeralPrefixesExclusive(s: string, i: nat, j: nat)
    requires i < j < |NumberWords|
    ensures !(StartsWithNumeral(s, i) && StartsWithNumeral(s, j))
  {
    NumeralDeterminedByPrefix(s);
  }

  /** The loop over the table replaces the numeral at index `k` when the
      string starts with it, and only then. */
  lemma {:induction false} ReplaceLeadingNumeralFrom(s: string, from: nat)
    requires from <= |NumberWords|
    ensures forall k :: from <= k < |NumberWords| && StartsWithNumeral(s, k) ==>
      ReplaceLeadingNumeral(s, NumberWords[from..]) == NumberWords[k].1 + s[|NumberWords[k].0|..]
    ensures (forall k :: from <= k < |NumberWords| ==> !StartsWithNumeral(s, k)) ==>
      ReplaceLeadingNumeral(s, NumberWords[from..]) == s
    decreases |NumberWords| - from
  {
    var words := NumberWords[from..];
    if from < |NumberWords| {
      assert words[0] == NumberWords[from];
      assert words[1..] == NumberWords[from + 1..];
      ReplaceLeadingNumeralFrom(s, from + 1);
      if StartsWithNumeral(s, from) {
        var d := NumberWords[from].0;
        assert StartsWith(s, d) by { assert s[..|d|] == (s[..|d| + 1])[..|d|]; }
        assert OccursAt(s, d, 0);
        forall k | from < k < |NumberWords| ensures !StartsWithNumeral(s, k) {
          NumeralPrefixesExclusive(s, from, k);
        }
      }
    }
  }

  /** The backup slug is the hyphenated lower-case name, with its leading
      numeral (if any) spelled out. */
  lemma BackupSlugCases(name: string)
    ensures var low := ToLower(name);
      forall k :: 0 <= k < |NumberWords| && StartsWithNumeral(low, k) ==>
        BackupSlug(name) == HyphenateWhitespace(NumberWords[k].1 + low[|NumberWords[k].0|..])
    ensures var low := ToLower(name);
      (forall k :: 0 <= k < |NumberWords| ==> !StartsWithNumeral(low, k)) ==>
        BackupSlug(name) == HyphenateWhitespace(low)
  {
    ReplaceLeadingNumeralFrom(ToLower(name), 0);
    assert NumberWords[0..] == NumberWords;
  }

  /** Spelling out a leading numeral with lower-case words keeps a
      lower-case string lower-case. */
  lemma {:induction false} ReplaceLeadingNumeralLower(s: string, words: seq<(string, string)>)
    requires NoUpper(s)
    requires forall k :: 0 <= k < |words| ==> NoUpper(words[k].1)
    ensures NoUpper(ReplaceLeadingNumeral(s, words))
  {
    if words != [] {
      var (d, w) := words[0];
      if StartsWith(s, d + " ") {
        assert StartsWith(s, d) by { assert s[..|d|] == (s[..|d| + 1])[..|d|]; }
        var r := ReplaceFirst(s, d, w);
        assert r == w + s[|d|..];
        assert NoUpper(w);
        forall i | 0 <= i < |r| ensures !IsUpper(r[i]) {
          if i >= |w| {
            assert r[i] == s[|d| + i - |w|];
          }
        }
      } else {
        ReplaceLeadingNumeralLower(s, words[1..]);
      }
    }
  }

  /** The slug has neither whitespace nor upper-case letters. */
  lemma BackupSlugShape(name: string)
    ensures NoWhitespace(BackupSlug(name)) && NoUpper(BackupSlug(name))
  {
    assert forall k :: 0 <= k < |NumberWords| ==> NoUpper(NumberWords[k].1);
    ReplaceLeadingNumeralLower(ToLower(name), NumberWords);
    HyphenateKeepsLower(ReplaceLeadingNumeral(ToLower(name), NumberWords));
  }

  /** A name that does not start with a digit is only lower-cased and
      hyphenated. */
  lemma NoLeadingDigitBackup(name: string)
    requires name == [] || !IsDigit(name[0])
    ensures BackupSlug(name) == HyphenateWhitespace(ToLower(name))
  {
    var low := ToLower(name);
    forall k | 0 <= k < |NumberWords| ensures !StartsWithNumeral(low, k) {
      var a := NumberWords[k].0 + " ";
      assert IsDigit(a[0]);
      if |low| > 0 {
        assert low[0] == LowerChar(name[0]);
      }
    }
    BackupSlugCases(name);
  }

  /* --------------------------------- deck -------------------------------- */

  function MajorCard(index: nat): (c: TarotCardData)
    requires index < |MajorArcanaNames|
  {
    var name := MajorArcanaNames[index];
    TarotCardData(
      "major-" + NatToString(index),
      name,
      Index(index),
      Major,
      ["Destiny", "Archetype"],
      true,
      "The " + name + " represents a significant soul lesson.",
      PrimaryImage(true, "Major", 0, index),
      BackupImage(name))
  }

  function MinorCard(suit: Suit, index: nat): (c: TarotCardData)
    requires index < |Ranks|
  {
    var rank := Ranks[index];
    var suitName := SuitName(suit);
    var name := rank + " of " + suitName;
    TarotCardData(
      ToLower(suitName) + "-" + NatToString(index),
      name,
      Rank(rank),
      suit,
      [suitName, rank],
      false,
      "The " + rank + " of " + suitName + ".",
      PrimaryImage(false, suitName, index, 0),
      BackupImage(name))
  }

  function MajorArcana(): seq<TarotCardData> {
    seq(|MajorArcanaNames|, i requires 0 <= i < |MajorArcanaNames| => MajorCard(i))
  }

  function SuitCards(suit: Suit): seq<TarotCardData> {
    seq(|Ranks|, i requires 0 <= i < |Ranks| => MinorCard(suit, i))
  }

  /** The suits' cards one suit after another. */
  function MinorArcana(suits: seq<Suit>): seq<TarotCardData> {
    if suits == [] then [] else SuitCards(suits[0]) + MinorArcana(suits[1..])
  }

  /** `generateDeck()`: the majors, then each suit in turn. */
  function GenerateDeck(): seq<TarotCardData> {
    MajorArcana() + MinorArcana(Suits)
  }

  const FullDeck: seq<TarotCardData> := GenerateDeck()

  /** The card at position `k` of the catalogue, described by arithmetic on `k`
      rather than by the construction loops. */
  function CardAt(k: nat): TarotCardData
    requires k < 78
  {
    if k < 22 then MajorCard(k) else MinorCard(Suits[(k - 22) / 14], (k - 22) % 14)
  }

  /** Suit block `s` of the minor arcana holds that suit's fourteen cards. */
  lemma {:induction false} MinorArcanaAt(suits: seq<Suit>)
    ensures |MinorArcana(suits)| == 14 * |suits|
    ensures forall s, i :: 0 <= s < |suits| && 0 <= i < 14 ==>
      MinorArcana(suits)[14 * s + i] == SuitCards(suits[s])[i]
  {
    if suits != [] {
      var tail := suits[1..];
      MinorArcanaAt(tail);
      var m := MinorArcana(suits);
      var head := SuitCards(suits[0]);
      assert |head| == 14;
      assert m == head + MinorArcana(tail);
      forall s, i | 0 <= s < |suits| && 0 <= i < 14
        ensures m[14 * s + i] == SuitCards(suits[s])[i]
      {
        if s == 0 {
          assert m[i] == head[i];
        } else {
          assert suits[s] == tail[s - 1];
          assert m[14 * s + i] == MinorArcana(tail)[14 * (s - 1) + i];
        }
      }
    }
  }

  /** The construction loops lay the catalogue out as `CardAt` describes. */
  lemma DeckLayout()
    ensures |FullDeck| == 78
    ensures forall k :: 0 <= k < 78 ==> FullDeck[k] == CardAt(k)
  {
    MinorArcanaAt(Suits);
    assert |MajorArcana()| == 22;
    forall k | 0 <= k < 78 ensures FullDeck[k] == CardAt(k) {
      if k < 22 {
        assert FullDeck[k] == MajorArcana()[k];
      } else {
        var s, i := (k - 22) / 14, (k - 22) % 14;
        assert k == 22 + 14 * s + i && s < 4 && i < 14;
        SuitBlockAt(s, i);
      }
    }
  }

  /** Card `i` of suit block `s` sits right after the majors and the `s`
      earlier blocks. */
  lemma SuitBlockAt(s: nat, i: nat)
    requires s < 4 && i < 14
    ensures |FullDeck| == 78
    ensures FullDeck[22 + 14 * s + i] == MinorCard(Suits[s], i)
  {
    MinorArcanaAt(Suits);
    assert |MajorArcana()| == 22;
    assert FullDeck[22 + 14 * s + i] == MinorArcana(Suits)[14 * s + i];
    assert SuitCards(Suits[s])[i] == MinorCard(Suits[s], i);
  }

  /** 22 majors first, then 14 cards for each suit in the order Wands, Cups,
      Swords, Pentacles; `isMajor` holds exactly for the Major suit; majors
      are numbered by index and minors carry their rank label. */
  lemma DeckComposition()
    ensures |FullDeck| == 78
    ensures forall k :: 0 <= k < 22 ==>
      FullDeck[k].suit == Major && FullDeck[k].number == Index(k) && FullDeck[k].name == MajorArcanaNames[k]
    ensures forall k :: 22 <= k < 78 ==>
      FullDeck[k].suit == Suits[(k - 22) / 14] && FullDeck[k].number == Rank(Ranks[(k - 22) % 14])
    ensures forall k :: 0 <= k < 78 ==> (FullDeck[k].isMajor <==> FullDeck[k].suit == Major)
  {
    DeckLayout();
    forall k | 0 <= k < 78 ensures FullDeck[k].isMajor <==> FullDeck[k].suit == Major {
      CardAtMajorFlag(k);
    }
  }

  lemma CardAtMajorFlag(k: nat)
    requires k < 78
    ensures CardAt(k).isMajor <==> CardAt(k).suit == Major
  {
    if k >= 22 {
      var g := (k - 22) / 14;
      assert g < 4;
      assert Suits[g] != Major;
    }
  }

  /** Every card has keywords: the fixed pair for majors, suit and rank for
      minors. */
  lemma DeckKeywords()
    ensures forall k :: 0 <= k < 22 ==> FullDeck[k].keywords == ["Destiny", "Archetype"]
    ensures forall k :: 22 <= k < 78 ==>
      FullDeck[k].keywords == [SuitName(Suits[(k - 22) / 14]), Ranks[(k - 22) % 14]]
    ensures forall k :: 0 <= k < |FullDeck| ==> |FullDeck[k].keywords| > 0
  {
    DeckLayout();
  }

  /** Majors point at `ar00`..`ar21`; minors at the suit code followed by
      `01`..`14`. */
  lemma DeckPrimaryImages()
    ensures forall k :: 0 <= k < 22 ==>
      FullDeck[k].image == PrimaryBaseUrl + "ar" + TwoDigits(k) + ".jpg"
    ensures forall k :: 22 <= k < 78 ==>
      FullDeck[k].image ==
        PrimaryBaseUrl + SuitPrefix(SuitName(Suits[(k - 22) / 14])) + TwoDigits((k - 22) % 14 + 1) + ".jpg"
  {
    DeckLayout();
  }

  lemma LowerOfPhrase(rank: string, suitName: string)
    ensures ToLower(rank + " of " + suitName) == ToLower(rank) + " of " + ToLower(suitName)
  {
    ToLowerConcat(rank + " of ", suitName);
    ToLowerConcat(rank, " of ");
    var of := " of ";
    assert ToLower(of) == of by {
      assert forall i :: 0 <= i < |of| ==> !IsUpper(of[i]);
    }
  }

  lemma SpellOutNumeralName(k: nat, suitName: string)
    requires k < |NumberWords|
    ensures var low := ToLower(NumberWords[k].0 + " of " + suitName);
      BackupSlug(NumberWords[k].0 + " of " + suitName) ==
        HyphenateWhitespace(NumberWords[k].1 + low[|NumberWords[k].0|..])
  {
    var numeral := NumberWords[k].0;
    var name := numeral + " of " + suitName;
    LowerOfPhrase(numeral, suitName);
    var low := ToLower(name);
    assert low[..|numeral| + 1] == numeral + " ";
    assert StartsWithNumeral(low, k);
    BackupSlugCases(name);
  }

  /** `<word> of <suit>` hyphenates to `<word>-of-<suit>`. */
  lemma HyphenateOfPhrase(word: string, rest: string, lsn: string)
    requires NoWhitespace(word) && NoWhitespace(lsn) && lsn != []
    requires rest == " of " + lsn
    ensures HyphenateWhitespace(word + rest) == word + "-of-" + lsn
  {
    var of := "of";
    assert " of " == " " + of + " " && "-of-" == "-" + of + "-";
    assert NoWhitespace(of);
    calc {
      word + rest;
      word + (" " + of + " " + lsn);
      word + " " + (of + " " + lsn);
    }
    HyphenateThreeWords(word, of, lsn);
    calc {
      word + "-" + (of + "-" + lsn);
      word + ("-" + of + "-") + lsn;
      word + "-of-" + lsn;
    }
  }

  /** Numerals are unchanged by lower-casing; their words are single words. */
  lemma NumberWordsShape()
    ensures forall k :: 0 <= k < |NumberWords| ==>
      ToLower(NumberWords[k].0) == NumberWords[k].0 && NoWhitespace(NumberWords[k].1)
  {
    forall k | 0 <= k < |NumberWords|
      ensures ToLower(NumberWords[k].0) == NumberWords[k].0
    {
      var n := NumberWords[k].0;
      assert forall i :: 0 <= i < |n| ==> '0' <= n[i] <= '9';
    }
  }

  lemma SpelledNumeralHyphenates(k: nat, suitName: string)
    requires k < |NumberWords|
    requires NoWhitespace(suitName) && suitName != []
    ensures var low := ToLower(NumberWords[k].0 + " of " + suitName);
      HyphenateWhitespace(NumberWords[k].1 + low[|NumberWords[k].0|..]) ==
        NumberWords[k].1 + "-of-" + ToLower(suitName)
  {
    var numeral := NumberWords[k].0;
    var word := NumberWords[k].1;
    var lsn := ToLower(suitName);
    LowerOfPhrase(numeral, suitName);
    NumberWordsShape();
    var low := ToLower(numeral + " of " + suitName);
    assert low[|numeral|..] == " of " + lsn;
    HyphenateOfPhrase(word, low[|numeral|..], lsn);
  }

  /** A name `<numeral> of <suit>` slugs to `<word>-of-<suit>`. */
  lemma NumeralNameSlug(k: nat, suitName: string)
    requires k < |NumberWords|
    requires NoWhitespace(suitName) && suitName != []
    ensures BackupSlug(NumberWords[k].0 + " of " + suitName) ==
      NumberWords[k].1 + "-of-" + ToLower(suitName)
  {
    SpellOutNumeralName(k, suitName);
    SpelledNumeralHyphenates(k, suitName);
  }

  /** The numbered minor cards 2..10 take the spelled-out numeral in their
      backup slug: `<word>-of-<suit>`. */
  lemma NumeralRankBackup(suit: Suit, index: nat)
    requires suit != Major && 1 <= index <= 9
    ensures BackupSlug(MinorCard(suit, index).name) ==
      NumberWords[index - 1].1 + "-of-" + ToLower(SuitName(suit))
  {
    MinorCardName(suit, index);
    SuitNameShape(suit);
    RanksNumerals();
    NumeralNameSlug(index - 1, SuitName(suit));
  }

  /** The ranks 2..10 are exactly the numerals of the word table, in order. */
  lemma RanksNumerals()
    ensures |NumberWords| == 9
    ensures forall i :: 1 <= i <= 9 ==> Ranks[i] == NumberWords[i - 1].0
  {
  }

  lemma MinorCardName(suit: Suit, index: nat)
    requires index < |Ranks|
    ensures MinorCard(suit, index).name == Ranks[index] + " of " + SuitName(suit)
  {
  }

  lemma SuitNameShape(suit: Suit)
    ensures NoWhitespace(SuitName(suit)) && SuitName(suit) != []
  {
  }

  /** A minor card's backup artwork is the backup URL of its name. */
  lemma MinorCardBackup(suit: Suit, index: nat)
    requires index < |Ranks|
    ensures MinorCard(suit, index).backupImage == BackupBaseUrl + BackupSlug(MinorCard(suit, index).name) + ".png"
  {
  }

  /** The worked example: the "2 of Wands" card's backup artwork. */
  lemma TwoOfWandsBackup(suit: Suit, index: nat)
    requires suit == Wands && index == 1
    ensures MinorCard(suit, index).name == "2 of Wands"
    ensures MinorCard(suit, index).backupImage == BackupBaseUrl + "two-of-wands.png"
  {
    TwoOfWandsName(suit, index);
    MinorCardBackup(suit, index);
    NumeralRankBackup(suit, index);
    SuitSlug(suit);
    TwoOfWandsSlug(NumberWords[index - 1].1, ToLower(SuitName(suit)));
  }

  lemma TwoOfWandsName(suit: Suit, index: nat)
    requires suit == Wands && index == 1
    ensures MinorCard(suit, index).name == "2 of Wands"
  {
    MinorCardName(suit, index);
    TwoOfWandsLiteral(Ranks[index], SuitName(suit));
  }

  /** The literal concatenations behind the example, kept apart from the
      catalogue so that the solver unfolds only these few characters. */
  lemma TwoOfWandsLiteral(rank: string, suitName: string)
    requires rank == "2" && suitName == "Wands"
    ensures rank + " of " + suitName == "2 of Wands"
  {
  }

  lemma TwoOfWandsSlug(word: string, lsn: string)
    requires word == "two" && lsn == "wands"
    ensures word + "-of-" + lsn == "two-of-wands"
  {
  }

  /* ---------------------------- distinct ids ----------------------------- */

  predicate DistinctIds(cards: seq<TarotCardData>) {
    forall i, j :: 0 <= i < j < |cards| ==> cards[i].id != cards[j].id
  }

  /** The id prefix of a group of cards: 0 is the majors, 1..4 the suits. */
  function GroupSlug(g: nat): string
    requires g < 5
  {
    ["major", "wands", "cups", "swords", "pentacles"][g]
  }

  /** The id group of a suit: its place in the suit order, after the majors. */
  function SuitGroup(s: Suit): (g: nat)
    requires s != Major
    ensures 1 <= g < 5
  {
    if s == Wands then 1 else if s == Cups then 2 else if s == Swords then 3 else 4
  }

  lemma SuitSlug(s: Suit)
    requires s != Major
    ensures ToLower(SuitName(s)) == GroupSlug(SuitGroup(s))
  {
    var n := SuitName(s);
    var l := ToLower(n);
    assert forall i :: 0 < i < |n| ==> l[i] == n[i];
    assert l[0] == LowerChar(n[0]);
  }

  function Group(k: nat): nat
    requires k < 78
  {
    if k < 22 then 0 else (k - 22) / 14 + 1
  }

  function IndexInGroup(k: nat): nat
    requires k < 78
  {
    if k < 22 then k else (k - 22) % 14
  }

  lemma MinorIdShape(suit: Suit, index: nat)
    requires suit != Major && index < |Ranks|
    ensures MinorCard(suit, index).id == GroupSlug(SuitGroup(suit)) + "-" + NatToString(index)
  {
    SuitSlug(suit);
  }

  /** The suits in catalogue order occupy id groups 1..4. */
  lemma SuitGroups()
    ensures forall g :: 0 <= g < 4 ==> Suits[g] != Major && SuitGroup(Suits[g]) == g + 1
  {
  }

  lemma MajorIdShape(k: nat)
    requires k < 22
    ensures CardAt(k).id == GroupSlug(0) + "-" + NatToString(k)
  {
    assert CardAt(k).id == MajorCard(k).id == "major-" + NatToString(k);
    assert GroupSlug(0) + "-" == "major-";
  }

  /** The card of rank index `i` in suit block `g` has id group `g + 1`. */
  lemma SuitBlockIdShape(g: nat, i: nat)
    requires g < 4 && i < 14
    ensures MinorCard(Suits[g], i).id == GroupSlug(g + 1) + "-" + NatToString(i)
  {
    SuitGroups();
    MinorIdShape(Suits[g], i);
  }

  lemma MinorAtIdShape(k: nat)
    requires 22 <= k < 78
    ensures CardAt(k).id == GroupSlug(Group(k)) + "-" + NatToString(IndexInGroup(k))
  {
    var g, i := (k - 22) / 14, (k - 22) % 14;
    assert g < 4 && i < 14;
    assert Group(k) == g + 1 && IndexInGroup(k) == i;
    assert CardAt(k) == MinorCard(Suits[g], i);
    SuitBlockIdShape(g, i);
  }

  /** Every id is a group slug, a hyphen and the card's number in its group. */
  lemma CardIdShape(k: nat)
    requires k < 78
    ensures Group(k) < 5
    ensures CardAt(k).id == GroupSlug(Group(k)) + "-" + NatToString(IndexInGroup(k))
  {
    if k < 22 {
      MajorIdShape(k);
    } else {
      MinorAtIdShape(k);
    }
  }

  /** Ids of the form `<group>-<n>` determine group and number. */
  lemma GroupIdInjective(g1: nat, n1: nat, g2: nat, n2: nat)
    requires g1 < 5 && g2 < 5
    requires GroupSlug(g1) + "-" + NatToString(n1) == GroupSlug(g2) + "-" + NatToString(n2)
    ensures g1 == g2 && n1 == n2
  {
    var a := GroupSlug(g1) + "-" + NatToString(n1);
    assert a[0] == GroupSlug(g1)[0] && a[0] == GroupSlug(g2)[0];
    var p := |GroupSlug(g1) + "-"|;
    assert a[p..] == NatToString(n1) && a[p..] == NatToString(n2);
    NatToStringInjective(n1, n2);
  }

  /** Distinct positions of the layout carry distinct ids. */
  lemma CardAtIdsDistinct(i: nat, j: nat)
    requires i < j < 78
    ensures CardAt(i).id != CardAt(j).id
  {
    CardIdShape(i);
    CardIdShape(j);
    if CardAt(i).id == CardAt(j).id {
      GroupIdInjective(Group(i), IndexInGroup(i), Group(j), IndexInGroup(j));
    }
  }

  /** No two cards of the catalogue share an id. */
  lemma DeckIdsDistinct()
    ensures DistinctIds(FullDeck)
  {
    DeckLayout();
    forall i, j | 0 <= i < j < 78 ensures FullDeck[i].id != FullDeck[j].id {
      CardAtIdsDistinct(i, j);
    }
  }
}
