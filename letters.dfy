/** The fixed catalog of letters, numerals and matching pairs every worksheet draws from. */
module Letters {
  import opened Seqs

  /** One letter of the alphabet with its pronunciation hint, an example word and a colour tag. */
  datatype MarathiLetter = MarathiLetter(
    letter: string, pronunciation: string, example: string, exampleMeaning: string, color: string)

  /** A numeral with its digit glyph, numeric value and number word. */
  datatype Numeral = Numeral(number: string, value: int, word: string)

  /** A letter, a word beginning with it and a picture (emoji) of that word. */
  datatype MatchingPair = MatchingPair(letter: string, word: string, image: string)

  /** The vowels (swar). */
  const Swar: seq<MarathiLetter> := [
    MarathiLetter("अ", "a", "अनार", "डाळिंब", "kid-orange"),
    MarathiLetter("आ", "aa", "आंबा", "फळ", "kid-pink"),
    MarathiLetter("इ", "i", "इमारत", "बिल्डिंग", "kid-teal"),
    MarathiLetter("ई", "ee", "ईडली", "खाद्यपदार्थ", "kid-purple"),
    MarathiLetter("उ", "u", "उंट", "प्राणी", "kid-yellow"),
    MarathiLetter("ऊ", "oo", "ऊन", "सूर्यप्रकाश", "kid-green"),
    MarathiLetter("ए", "e", "एकतार", "वाद्य", "kid-blue"),
    MarathiLetter("ऐ", "ai", "ऐरावत", "हत्ती", "kid-red"),
    MarathiLetter("ओ", "o", "ओवा", "मसाला", "kid-orange"),
    MarathiLetter("औ", "au", "औषध", "दवाई", "kid-pink"),
    MarathiLetter("अं", "am", "अंगठा", "हाताचे बोट", "kid-teal"),
    MarathiLetter("अः", "ah", "दुःख", "वेदना", "kid-purple")
  ]

  /** Consonants, क-varga: velars. */
  const KaVarga: seq<MarathiLetter> := [
    MarathiLetter("क", "ka", "कमळ", "फूल", "kid-orange"),
    MarathiLetter("ख", "kha", "खरगोश", "प्राणी", "kid-pink"),
    MarathiLetter("ग", "ga", "गाय", "प्राणी", "kid-teal"),
    MarathiLetter("घ", "gha", "घर", "राहण्याची जागा", "kid-purple"),
    MarathiLetter("ङ", "nga", "पंख", "पक्ष्याचे", "kid-yellow")
  ]

  /** Consonants, च-varga: palatals. */
  const ChaVarga: seq<MarathiLetter> := [
    MarathiLetter("च", "cha", "चंद्र", "आकाशातील", "kid-green"),
    MarathiLetter("छ", "chha", "छत्री", "पावसाळी", "kid-blue"),
    MarathiLetter("ज", "ja", "जहाज", "पाण्यातील वाहन", "kid-red"),
    MarathiLetter("झ", "jha", "झाड", "वनस्पती", "kid-orange"),
    MarathiLetter("ञ", "nya", "पंजा", "हात", "kid-pink")
  ]

  /** Consonants, ट-varga: retroflexes. */
  const TtaVarga: seq<MarathiLetter> := [
    MarathiLetter("ट", "ta", "टोपी", "कपडा", "kid-teal"),
    MarathiLetter("ठ", "tha", "ठिकाण", "जागा", "kid-purple"),
    MarathiLetter("ड", "da", "डोंगर", "पर्वत", "kid-yellow"),
    MarathiLetter("ढ", "dha", "ढोल", "वाद्य", "kid-green"),
    MarathiLetter("ण", "na", "बाण", "शस्त्र", "kid-blue")
  ]

  /** Consonants, त-varga: dentals. */
  const TaVarga: seq<MarathiLetter> := [
    MarathiLetter("त", "ta", "तारा", "आकाशातील", "kid-red"),
    MarathiLetter("थ", "tha", "थंडी", "हवामान", "kid-orange"),
    MarathiLetter("द", "da", "दात", "शरीराचा भाग", "kid-pink"),
    MarathiLetter("ध", "dha", "धनुष्य", "शस्त्र", "kid-teal"),
    MarathiLetter("न", "na", "नाक", "शरीराचा भाग", "kid-purple")
  ]

  /** Consonants, प-varga: labials. */
  const PaVarga: seq<MarathiLetter> := [
    MarathiLetter("प", "pa", "पतंग", "उडणारी", "kid-yellow"),
    MarathiLetter("फ", "pha", "फूल", "वनस्पती", "kid-green"),
    MarathiLetter("ब", "ba", "बदक", "पक्षी", "kid-blue"),
    MarathiLetter("भ", "bha", "भात", "अन्न", "kid-red"),
    MarathiLetter("म", "ma", "मोर", "पक्षी", "kid-orange")
  ]

  /** Consonants, antastha: semivowels. */
  const Antastha: seq<MarathiLetter> := [
    MarathiLetter("य", "ya", "यंत्र", "मशीन", "kid-pink"),
    MarathiLetter("र", "ra", "रथ", "वाहन", "kid-teal"),
    MarathiLetter("ल", "la", "लिंबू", "फळ", "kid-purple"),
    MarathiLetter("व", "va", "वाघ", "प्राणी", "kid-yellow")
  ]

  /** Consonants, ushma: sibilants and ह. */
  const Ushma: seq<MarathiLetter> := [
    MarathiLetter("श", "sha", "शाळा", "विद्यालय", "kid-green"),
    MarathiLetter("ष", "sha", "षटकोन", "आकार", "kid-blue"),
    MarathiLetter("स", "sa", "सफरचंद", "फळ", "kid-red"),
    MarathiLetter("ह", "ha", "हत्ती", "प्राणी", "kid-orange")
  ]

  /** Consonants, sanyukta: ळ and the conjuncts. */
  const Sanyukta: seq<MarathiLetter> := [
    MarathiLetter("ळ", "la", "बाळ", "लहान मूल", "kid-pink"),
    MarathiLetter("क्ष", "ksha", "क्षेत्र", "जागा", "kid-teal"),
    MarathiLetter("ज्ञ", "dnya", "ज्ञान", "विद्या", "kid-purple")
  ]

  /** The consonants (vyanjan), in the catalog's order: the five vargas, then the rest. */
  const Vyanjan: seq<MarathiLetter> :=
    KaVarga + ChaVarga + TtaVarga + TaVarga + PaVarga + Antastha + Ushma + Sanyukta

  /** The numerals zero to ten (ankh). */
  const Ankh: seq<Numeral> := [
    Numeral("०", 0, "शून्य"),
    Numeral("१", 1, "एक"),
    Numeral("२", 2, "दोन"),
    Numeral("३", 3, "तीन"),
    Numeral("४", 4, "चार"),
    Numeral("५", 5, "पाच"),
    Numeral("६", 6, "सहा"),
    Numeral("७", 7, "सात"),
    Numeral("८", 8, "आठ"),
    Numeral("९", 9, "नऊ"),
    Numeral("१०", 10, "दहा")
  ]

  /** Every letter: the vowels followed by the consonants. */
  const AllLetters: seq<MarathiLetter> := Swar + Vyanjan

  /** The pairs the matching worksheet chooses from. */
  const MatchingPairs: seq<MatchingPair> := [
    MatchingPair("अ", "आंबा", "🥭"),
    MatchingPair("क", "कमळ", "🪷"),
    MatchingPair("ग", "गाय", "🐄"),
    MatchingPair("घ", "घर", "🏠"),
    MatchingPair("च", "चंद्र", "🌙"),
    MatchingPair("ज", "जहाज", "🚢"),
    MatchingPair("झ", "झाड", "🌳"),
    MatchingPair("ट", "टोपी", "🎩"),
    MatchingPair("प", "पतंग", "🪁"),
    MatchingPair("फ", "फूल", "🌸"),
    MatchingPair("ब", "बदक", "🦆"),
    MatchingPair("म", "मोर", "🦚"),
    MatchingPair("स", "सफरचंद", "🍎"),
    MatchingPair("ह", "हत्ती", "🐘"),
    MatchingPair("त", "तारा", "⭐")
  ]

  /** The letter strings of a list of letters, in order. */
  function LetterNames(ls: seq<MarathiLetter>): (r: seq<string>)
    ensures |r| == |ls|
    ensures forall i :: 0 <= i < |ls| ==> r[i] == ls[i].letter
  {
    seq(|ls|, i requires 0 <= i < |ls| => ls[i].letter)
  }

  /** Position of a one-character letter in AllLetters, or -1. */
  function SingleCharIndex(c: char): int {
    if c == 'अ' then 0
    else if c == 'आ' then 1
    else if c == 'इ' then 2
    else if c == 'ई' then 3
    else if c == 'उ' then 4
    else if c == 'ऊ' then 5
    else if c == 'ए' then 6
    else if c == 'ऐ' then 7
    else if c == 'ओ' then 8
    else if c == 'औ' then 9
    else if c == 'क' then 12
    else if c == 'ख' then 13
    else if c == 'ग' then 14
    else if c == 'घ' then 15
    else if c == 'ङ' then 16
    else if c == 'च' then 17
    else if c == 'छ' then 18
    else if c == 'ज' then 19
    else if c == 'झ' then 20
    else if c == 'ञ' then 21
    else if c == 'ट' then 22
    else if c == 'ठ' then 23
    else if c == 'ड' then 24
    else if c == 'ढ' then 25
    else if c == 'ण' then 26
    else if c == 'त' then 27
    else if c == 'थ' then 28
    else if c == 'द' then 29
    else if c == 'ध' then 30
    else if c == 'न' then 31
    else if c == 'प' then 32
    else if c == 'फ' then 33
    else if c == 'ब' then 34
    else if c == 'भ' then 35
    else if c == 'म' then 36
    else if c == 'य' then 37
    else if c == 'र' then 38
    else if c == 'ल' then 39
    else if c == 'व' then 40
    else if c == 'श' then 41
    else if c == 'ष' then 42
    else if c == 'स' then 43
    else if c == 'ह' then 44
    else if c == 'ळ' then 45
    else -1
  }

  /** Position of a letter string in AllLetters, or -1 if the catalog has no such letter.
      It looks only at the length and at single characters, which keeps it cheap to evaluate. */
  function CatalogIndex(s: string): int {
    if |s| == 1 then SingleCharIndex(s[0])
    else if |s| == 2 && s[0] == 'अ' && s[1] == 'ं' then 10
    else if |s| == 2 && s[0] == 'अ' && s[1] == 'ः' then 11
    else if |s| == 3 && s[0] == 'क' && s[1] == '्' && s[2] == 'ष' then 46
    else if |s| == 3 && s[0] == 'ज' && s[1] == '्' && s[2] == 'ञ' then 47
    else -1
  }

  /** The sizes of the tables, and the combined list is exactly the vowels then the consonants. */
  lemma CatalogShape()
    ensures |Swar| == 12 && |Vyanjan| == 36 && |Ankh| == 11 && |MatchingPairs| == 15
    ensures |AllLetters| == 48 && AllLetters[..12] == Swar && AllLetters[12..] == Vyanjan
  {
  }

  /** CatalogIndex on each group of the catalog, in both directions: it finds each entry of the group
      at its position, and a position it gives inside the group holds exactly that letter string.
      One lemma per group keeps each proof small. */
  lemma SwarIndexed()
    ensures forall i :: 0 <= i < |Swar| ==> CatalogIndex(Swar[i].letter) == i
    ensures forall s :: 0 <= CatalogIndex(s) < |Swar| ==> Swar[CatalogIndex(s)].letter == s
  {
  }

  lemma KaVargaIndexed()
    ensures forall i :: 0 <= i < |KaVarga| ==> CatalogIndex(KaVarga[i].letter) == 12 + i
    ensures forall s :: 12 <= CatalogIndex(s) < 12 + |KaVarga| ==> KaVarga[CatalogIndex(s) - 12].letter == s
  {
  }

  lemma ChaVargaIndexed()
    ensures forall i :: 0 <= i < |ChaVarga| ==> CatalogIndex(ChaVarga[i].letter) == 17 + i
    ensures forall s :: 17 <= CatalogIndex(s) < 17 + |ChaVarga| ==> ChaVarga[CatalogIndex(s) - 17].letter == s
  {
  }

  lemma TtaVargaIndexed()
    ensures forall i :: 0 <= i < |TtaVarga| ==> CatalogIndex(TtaVarga[i].letter) == 22 + i
    ensures forall s :: 22 <= CatalogIndex(s) < 22 + |TtaVarga| ==> TtaVarga[CatalogIndex(s) - 22].letter == s
  {
  }

  lemma TaVargaIndexed()
    ensures forall i :: 0 <= i < |TaVarga| ==> CatalogIndex(TaVarga[i].letter) == 27 + i
    ensures forall s :: 27 <= CatalogIndex(s) < 27 + |TaVarga| ==> TaVarga[CatalogIndex(s) - 27].letter == s
  {
  }

  lemma PaVargaIndexed()
    ensures forall i :: 0 <= i < |PaVarga| ==> CatalogIndex(PaVarga[i].letter) == 32 + i
    ensures forall s :: 32 <= CatalogIndex(s) < 32 + |PaVarga| ==> PaVarga[CatalogIndex(s) - 32].letter == s
  {
  }

  lemma AntasthaIndexed()
    ensures forall i :: 0 <= i < |Antastha| ==> CatalogIndex(Antastha[i].letter) == 37 + i
    ensures forall s :: 37 <= CatalogIndex(s) < 37 + |Antastha| ==> Antastha[CatalogIndex(s) - 37].letter == s
  {
  }

  lemma UshmaIndexed()
    ensures forall i :: 0 <= i < |Ushma| ==> CatalogIndex(Ushma[i].letter) == 41 + i
    ensures forall s :: 41 <= CatalogIndex(s) < 41 + |Ushma| ==> Ushma[CatalogIndex(s) - 41].letter == s
  {
  }

  lemma SanyuktaIndexed()
    ensures forall i :: 0 <= i < |Sanyukta| ==> CatalogIndex(Sanyukta[i].letter) == 45 + i
    ensures forall s :: 45 <= CatalogIndex(s) < 45 + |Sanyukta| ==> Sanyukta[CatalogIndex(s) - 45].letter == s
  {
  }

  /** CatalogIndex finds every catalog entry at its own position. */
  lemma CatalogIndexFinds()
    ensures forall i :: 0 <= i < |AllLetters| ==> CatalogIndex(AllLetters[i].letter) == i
  {
    assert forall i :: 0 <= i < |Swar| ==> CatalogIndex(Swar[i].letter) == i by {
      SwarIndexed();
    }
    assert forall i :: 0 <= i < |KaVarga| ==> CatalogIndex(KaVarga[i].letter) == 12 + i by {
      KaVargaIndexed();
    }
    assert forall i :: 0 <= i < |ChaVarga| ==> CatalogIndex(ChaVarga[i].letter) == 17 + i by {
      ChaVargaIndexed();
    }
    assert forall i :: 0 <= i < |TtaVarga| ==> CatalogIndex(TtaVarga[i].letter) == 22 + i by {
      TtaVargaIndexed();
    }
    assert forall i :: 0 <= i < |TaVarga| ==> CatalogIndex(TaVarga[i].letter) == 27 + i by {
      TaVargaIndexed();
    }
    assert forall i :: 0 <= i < |PaVarga| ==> CatalogIndex(PaVarga[i].letter) == 32 + i by {
      PaVargaIndexed();
    }
    assert forall i :: 0 <= i < |Antastha| ==> CatalogIndex(Antastha[i].letter) == 37 + i by {
      AntasthaIndexed();
    }
    assert forall i :: 0 <= i < |Ushma| ==> CatalogIndex(Ushma[i].letter) == 41 + i by {
      UshmaIndexed();
    }
    assert forall i :: 0 <= i < |Sanyukta| ==> CatalogIndex(Sanyukta[i].letter) == 45 + i by {
      SanyuktaIndexed();
    }
  }

  /** No two entries of the combined list share a letter string. */
  lemma AllLettersDistinct()
    ensures Distinct(LetterNames(AllLetters))
    ensures forall i, j :: 0 <= i < j < |AllLetters| ==> AllLetters[i].letter != AllLetters[j].letter
  {
    CatalogIndexFinds();
  }

  /** A position CatalogIndex gives holds exactly the letter string asked for. */
  lemma CatalogIndexSound(s: string)
    ensures CatalogIndex(s) >= 0 ==> CatalogIndex(s) < |AllLetters| && AllLetters[CatalogIndex(s)].letter == s
  {
    var k := CatalogIndex(s);
    if 0 <= k {
      if k < 12 {
        SwarIndexed();
      } else if k < 17 {
        KaVargaIndexed();
      } else if k < 22 {
        ChaVargaIndexed();
      } else if k < 27 {
        TtaVargaIndexed();
      } else if k < 32 {
        TaVargaIndexed();
      } else if k < 37 {
        PaVargaIndexed();
      } else if k < 41 {
        AntasthaIndexed();
      } else if k < 45 {
        UshmaIndexed();
      } else {
        SanyuktaIndexed();
      }
    }
  }

  /** CatalogIndex is non-negative exactly for the letter strings of the catalog. */
  lemma CatalogIndexCorrect(s: string)
    ensures CatalogIndex(s) >= 0 <==> exists l :: l in AllLetters && l.letter == s
  {
    var k := CatalogIndex(s);
    if 0 <= k {
      CatalogIndexSound(s);
      var l := AllLetters[k];
      assert l in AllLetters && l.letter == s;
    } else {
      forall l | l in AllLetters ensures l.letter != s {
        var i :| 0 <= i < |AllLetters| && AllLetters[i] == l;
        CatalogIndexFinds();
      }
    }
  }

  /** Within the catalog a letter string identifies its entry. */
  lemma LetterDeterminesEntry()
    ensures forall a, b :: a in AllLetters && b in AllLetters && a.letter == b.letter ==> a == b
  {
    AllLettersDistinct();
    NamesDetermineEntries(AllLetters);
  }

  /** In a list whose names are pairwise different, a name determines the entry. */
  lemma NamesDetermineEntries(pool: seq<MarathiLetter>)
    requires Distinct(LetterNames(pool))
    ensures forall a, b :: a in pool && b in pool && a.letter == b.letter ==> a == b
  {
    var names := LetterNames(pool);
    forall a, b | a in pool && b in pool && a.letter == b.letter
      ensures a == b
    {
      var i :| 0 <= i < |pool| && pool[i] == a;
      var j :| 0 <= j < |pool| && pool[j] == b;
      assert names[i] == names[j];
    }
  }

  /** Distinct entries taken from a list with pairwise different names have pairwise different
      names themselves. */
  lemma SelectionKeepsNamesDistinct(pool: seq<MarathiLetter>, sub: seq<MarathiLetter>)
    requires Distinct(LetterNames(pool)) && Distinct(sub)
    requires forall x :: x in sub ==> x in pool
    ensures Distinct(LetterNames(sub))
  {
    NamesDetermineEntries(pool);
    var names := LetterNames(sub);
    forall i, j | 0 <= i < j < |sub| ensures names[i] != names[j] {
      assert sub[i] in pool && sub[j] in pool;
    }
  }


  /** The numeral table lists the values zero to ten in order. */
  lemma AnkhValues()
    ensures |Ankh| == 11
    ensures forall i :: 0 <= i < |Ankh| ==> Ankh[i].value == i
  {
  }

  /** No two matching pairs share a letter or a picture. */
  lemma MatchingPairsDistinct()
    ensures forall i, j :: 0 <= i < j < |MatchingPairs| ==>
      MatchingPairs[i].letter != MatchingPairs[j].letter && MatchingPairs[i].image != MatchingPairs[j].image
  {
  }

  /** Among the matching pairs, a letter identifies its pair and so does a picture. */
  lemma MatchingPairKeys()
    ensures forall p, q :: p in MatchingPairs && q in MatchingPairs && p.letter == q.letter ==> p == q
    ensures forall p, q :: p in MatchingPairs && q in MatchingPairs && p.image == q.image ==> p == q
  {
    MatchingPairsDistinct();
    forall p, q | p in MatchingPairs && q in MatchingPairs && (p.letter == q.letter || p.image == q.image)
      ensures p == q
    {
      var i :| 0 <= i < |MatchingPairs| && MatchingPairs[i] == p;
      var j :| 0 <= j < |MatchingPairs| && MatchingPairs[j] == q;
      assert i == j;
    }
  }

  /** Every picture string is non-empty. */
  lemma MatchingImagesNonEmpty()
    ensures forall p :: p in MatchingPairs ==> p.image != ""
  {
  }

  /** Every matching pair uses a letter of the catalog. */
  lemma MatchingLettersInCatalog()
    ensures forall p :: p in MatchingPairs ==> exists l :: l in AllLetters && l.letter == p.letter
  {
    assert forall i :: 0 <= i < |MatchingPairs| ==> CatalogIndex(MatchingPairs[i].letter) >= 0;
    forall p | p in MatchingPairs
      ensures exists l :: l in AllLetters && l.letter == p.letter
    {
      CatalogIndexCorrect(p.letter);
    }
  }
}
