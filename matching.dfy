/** The letter-to-picture matching worksheet: six pairs are dealt, the pictures are shown in a
    shuffled order, and the child selects a letter and then the picture that goes with it. */
module Matching {
  import opened Wrappers
  import opened Seqs
  import opened Shuffle
  import opened Letters

  /** How many pairs one game deals. */
  const PairsPerGame := 6

  /** The letters of a list of pairs, as a set. */
  function PairLetters(ps: seq<MatchingPair>): set<string> {
    if ps == [] then {} else {ps[0].letter} + PairLetters(ps[1..])
  }

  /** A letter is among the letters of a list exactly when some pair of the list carries it. */
  lemma {:induction false} PairLettersMembers(ps: seq<MatchingPair>)
    ensures forall p :: p in ps ==> p.letter in PairLetters(ps)
    ensures forall l :: l in PairLetters(ps) ==> exists p :: p in ps && p.letter == l
  {
    if ps != [] {
      PairLettersMembers(ps[1..]);
      assert forall p :: p in ps ==> p == ps[0] || p in ps[1..];
    }
  }

  /** A map that never sends two keys to the same value. */
  ghost predicate Injective(m: map<string, string>) {
    forall a, b :: a in m && b in m && a != b ==> m[a] != m[b]
  }

  /** Pairs whose letter determines the pair, whose picture determines the pair, and whose
      pictures are non-empty. Every sub-list of the pair list is keyed this way. */
  ghost predicate Keyed(ps: seq<MatchingPair>) {
    && (forall p, q :: p in ps && q in ps && p.letter == q.letter ==> p == q)
    && (forall p, q :: p in ps && q in ps && p.image == q.image ==> p == q)
    && (forall p :: p in ps ==> p.image != "")
  }

  /** A pair list a game can be dealt from: at least six pairs, no repeats, keyed. */
  ghost predicate DealablePool(pool: seq<MatchingPair>) {
    PairsPerGame <= |pool| && Distinct(pool) && Keyed(pool)
  }

  /** The pairs of one game from a pair list: the first six of a shuffle of it. */
  function DealFrom(pool: seq<MatchingPair>, rolls: seq<nat>): (r: seq<MatchingPair>)
    requires DealablePool(pool) && ValidRolls(rolls, |pool|)
    ensures |r| == PairsPerGame && Distinct(r)
    ensures Keyed(r)
    ensures |PairLetters(r)| == PairsPerGame
    ensures forall p :: p in r ==> p in pool
  {
    var r := ShuffledPrefix(pool, rolls, PairsPerGame);
    ShuffledPrefixSelects(pool, rolls, PairsPerGame);
    KeyedSub(r, pool);
    PairLettersCard(r);
    r
  }

  /** The whole pair list can be dealt from. */
  lemma CatalogDealable()
    ensures |MatchingPairs| == 15 && DealablePool(MatchingPairs)
  {
    MatchingPairsDistinct();
    PairListKeyed();
  }

  /** The pairs of one game: the first six of a shuffle of the whole pair list. */
  function DealPairs(rolls: seq<nat>): (r: seq<MatchingPair>)
    requires ValidRolls(rolls, |MatchingPairs|)
    ensures |r| == PairsPerGame && Distinct(r)
    ensures Keyed(r)
    ensures |PairLetters(r)| == PairsPerGame
  {
    CatalogDealable();
    DealFrom(MatchingPairs, rolls)
  }

  /** Every dealt pair is a pair of the catalog. */
  lemma DealtFromCatalog(rolls: seq<nat>)
    requires ValidRolls(rolls, |MatchingPairs|)
    ensures forall p :: p in DealPairs(rolls) ==> p in MatchingPairs
  {
    CatalogDealable();
    assert DealPairs(rolls) == DealFrom(MatchingPairs, rolls);
  }

  /** The whole pair list is keyed. */
  lemma PairListKeyed()
    ensures Keyed(MatchingPairs)
  {
    MatchingPairKeys();
    MatchingImagesNonEmpty();
  }

  /** Any selection from a keyed list is keyed. */
  lemma KeyedSub(ps: seq<MatchingPair>, big: seq<MatchingPair>)
    requires Keyed(big) && forall p :: p in ps ==> p in big
    ensures Keyed(ps)
  {
  }

  /** Distinct keyed pairs carry as many distinct letters as there are pairs. */
  lemma {:induction false} PairLettersCard(ps: seq<MatchingPair>)
    requires Distinct(ps) && Keyed(ps)
    ensures |PairLetters(ps)| == |ps|
  {
    if ps != [] {
      DistinctSlice(ps, 1, |ps|);
      KeyedSub(ps[1..], ps);
      PairLettersCard(ps[1..]);
      HeadLetterFresh(ps);
    }
  }

  /** In distinct keyed pairs the first letter returns nowhere further on. */
  lemma HeadLetterFresh(ps: seq<MatchingPair>)
    requires |ps| > 0 && Distinct(ps) && Keyed(ps)
    ensures ps[0].letter !in PairLetters(ps[1..])
  {
    assert ps[0] !in ps[1..] by {
      forall j | 0 <= j < |ps[1..]| ensures ps[1..][j] != ps[0] {
        assert ps[1..][j] == ps[j + 1];
      }
    }
    PairLettersMembers(ps[1..]);
  }

  /** The game invariant: six distinct pairs are on the board, keyed by letter and by picture,
      and the pictures are a permutation of them; every match sends a letter of the board to its
      own pair's picture, no picture is used twice, the score is ten per match, the celebration
      shows only once every pair is matched, and a selected letter is never one already
      matched. */
  ghost predicate BoardInv(pairs: seq<MatchingPair>, images: seq<MatchingPair>, selected: Option<string>,
                          matches: map<string, string>, score: int, celebration: bool)
  {
    && |pairs| == PairsPerGame && Distinct(pairs)
    && Keyed(pairs) && |PairLetters(pairs)| == PairsPerGame
    && multiset(images) == multiset(pairs)
    && matches.Keys <= PairLetters(pairs)
    && (forall p :: p in pairs && p.letter in matches ==> matches[p.letter] == p.image)
    && Injective(matches)
    && score == 10 * |matches|
    && (celebration ==> |matches| == |pairs|)
    && (selected.Some? ==> selected.value !in matches)
  }

  class MatchingWorksheet {
    /** The pair list games are dealt from. */
    const catalog: seq<MatchingPair>
    var currentPairs: seq<MatchingPair>
    var shuffledImages: seq<MatchingPair>
    var selectedLetter: Option<string>
    var matches: map<string, string>
    var wrongMatch: Option<string>
    var score: int
    var showCelebration: bool

    /** The game invariant, on the fields. */
    ghost predicate Valid()
      reads this
    {
      && DealablePool(catalog)
      && BoardInv(currentPairs, shuffledImages, selectedLetter, matches, score, showCelebration)
    }

    /** Mounting the worksheet runs initializeGame once. */
    constructor (pairRolls: seq<nat>, imageRolls: seq<nat>)
      requires ValidRolls(pairRolls, |MatchingPairs|) && ValidRolls(imageRolls, PairsPerGame)
      ensures Valid()
      ensures catalog == MatchingPairs
      ensures currentPairs == DealPairs(pairRolls)
      ensures shuffledImages == Shuffled(currentPairs, imageRolls)
      ensures matches == map[] && score == 0 && selectedLetter == None
      ensures wrongMatch == None && !showCelebration
    {
      CatalogDealable();
      catalog := MatchingPairs;
      currentPairs, shuffledImages := [], [];
      selectedLetter, matches, wrongMatch := None, map[], None;
      score, showCelebration := 0, false;
      new;
      InitializeGame(pairRolls, imageRolls);
    }

    /** initializeGame: deal six pairs, shuffle their pictures and clear all progress. */
    method InitializeGame(pairRolls: seq<nat>, imageRolls: seq<nat>)
      requires DealablePool(catalog) && ValidRolls(pairRolls, |catalog|) && ValidRolls(imageRolls, PairsPerGame)
      modifies this
      ensures Valid()
      ensures currentPairs == DealFrom(catalog, pairRolls)
      ensures shuffledImages == Shuffled(currentPairs, imageRolls)
      ensures matches == map[] && score == 0 && selectedLetter == None
      ensures wrongMatch == None && !showCelebration
    {
      var selected := ShufflePrefix(catalog, pairRolls, PairsPerGame);
      assert selected == DealFrom(catalog, pairRolls);
      var images := ShuffleArray(selected, imageRolls);
      currentPairs := selected;
      shuffledImages := images;
      selectedLetter := None;
      matches := map[];
      wrongMatch := None;
      score := 0;
      showCelebration := false;
    }

    /** handleLetterClick: a letter already matched (to a non-empty picture) is ignored;
        any other letter becomes the selection and the wrong-match flash is cleared. */
    method HandleLetterClick(letter: string)
      requires Valid()
      modifies this`selectedLetter, this`wrongMatch
      ensures Valid()
      ensures old(letter in matches) ==> selectedLetter == old(selectedLetter) && wrongMatch == old(wrongMatch)
      ensures old(letter !in matches) ==> selectedLetter == Some(letter) && wrongMatch == None
    {
      assert letter in matches ==> matches[letter] != "" by {
        if letter in matches {
          MatchedImageNonEmpty(letter);
        }
      }
      if letter in matches && matches[letter] != "" {
        return;
      }
      selectedLetter := Some(letter);
      wrongMatch := None;
    }

    /** A matched letter maps to a non-empty picture, so the already-matched test of
        handleLetterClick is the same as membership in the matches. */
    lemma MatchedImageNonEmpty(l: string)
      requires Valid() && l in matches
      ensures matches[l] != ""
    {
      PairLettersMembers(currentPairs);
      var p :| p in currentPairs && p.letter == l;
    }

    /** handleImageClick on one of the shown pictures. Nothing happens without a selection or
        when the picture is already matched. A picture of the selected letter is matched: one
        entry is added, the score rises by ten, the selection clears, and the celebration starts
        when that was the last pair. Any other picture is flashed as a wrong match. */
    method HandleImageClick(pair: MatchingPair)
      requires Valid() && pair in shuffledImages
      modifies this`matches, this`score, this`selectedLetter, this`wrongMatch, this`showCelebration
      ensures Valid()
      ensures old(selectedLetter.None? || selectedLetter.value == "" || pair.image in matches.Values) ==>
        unchanged(this)
      ensures old(selectedLetter.Some? && selectedLetter.value != "" && pair.image !in matches.Values) ==>
        if pair.letter == old(selectedLetter.value) then
          && matches == old(matches)[pair.letter := pair.image]
          && pair.letter !in old(matches)
          && score == old(score) + 10
          && selectedLetter == None
          && wrongMatch == old(wrongMatch)
          && showCelebration == (|matches| == |currentPairs|)
        else
          && matches == old(matches) && score == old(score)
          && selectedLetter == old(selectedLetter) && showCelebration == old(showCelebration)
          && wrongMatch == Some(pair.image)
    {
      if selectedLetter.None? || selectedLetter.value == "" {
        return;
      }
      if pair.image in matches.Values {
        return;
      }
      var letter := selectedLetter.value;
      if pair.letter == letter {
        assert pair in currentPairs by {
          assert pair in multiset(shuffledImages);
        }
        var newMatches := matches[letter := pair.image];
        assert |matches| < |currentPairs| && !showCelebration by {
          PairLettersMembers(currentPairs);
          MatchLeavesRoom(letter);
        }
        assert BoardInv(currentPairs, shuffledImages, None, newMatches, score + 10,
                        |newMatches| == |currentPairs|) by {
          MatchExtends(pair);
        }
        matches := newMatches;
        score := score + 10;
        selectedLetter := None;
        if |newMatches| == |currentPairs| {
          showCelebration := true;
        }
      } else {
        wrongMatch := Some(pair.image);
      }
    }

    /** A click on the celebration overlay hides it; the board stays as it is. */
    method DismissCelebration()
      requires Valid()
      modifies this`showCelebration
      ensures Valid()
      ensures !showCelebration
    {
      showCelebration := false;
    }

    /** Matches always send letters of the board, so there are at most six of them. */
    lemma ScoreBounded()
      requires Valid()
      ensures |matches| <= |currentPairs| && 0 <= score <= 10 * PairsPerGame
    {
      SubsetCard(matches.Keys, PairLetters(currentPairs));
    }

    /** Matching a board pair whose letter and picture are both still free keeps every match
        pointing at its own pair's picture, keeps pictures unshared, and adds exactly one match. */
    lemma MatchExtends(p: MatchingPair)
      requires Valid() && p in currentPairs && p.letter !in matches && p.image !in matches.Values
      ensures var m := matches[p.letter := p.image];
        && m.Keys <= PairLetters(currentPairs)
        && (forall q :: q in currentPairs && q.letter in m ==> m[q.letter] == q.image)
        && Injective(m)
        && |m| == |matches| + 1
    {
      PairLettersMembers(currentPairs);
      var m := matches[p.letter := p.image];
      forall a, b | a in m && b in m && a != b ensures m[a] != m[b] {
        if a == p.letter {
          assert m[b] == matches[b] && matches[b] in matches.Values;
        } else if b == p.letter {
          assert m[a] == matches[a] && matches[a] in matches.Values;
        }
      }
    }

    /** A letter of the board that is not yet matched leaves room for one more match. */
    lemma MatchLeavesRoom(letter: string)
      requires Valid() && letter in PairLetters(currentPairs) && letter !in matches
      ensures |matches| < |currentPairs| && !showCelebration
    {
      ProperSubsetCard(matches.Keys, PairLetters(currentPairs), letter);
    }

    /** The celebration shows only when every letter on the board has been matched, and the
        board is fully matched exactly when there are six matches. */
    lemma CelebrationMeansAllMatched()
      requires Valid()
      ensures showCelebration ==> matches.Keys == PairLetters(currentPairs)
      ensures matches.Keys == PairLetters(currentPairs) <==> |matches| == |currentPairs|
    {
      if |matches| == |currentPairs| && matches.Keys != PairLetters(currentPairs) {
        var l :| l in PairLetters(currentPairs) && l !in matches;
        MatchLeavesRoom(l);
      }
    }
  }
}
