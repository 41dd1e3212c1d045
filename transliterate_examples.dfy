/** Worked examples of the encoder, each traced one loop iteration at a time. */
module TransliterationExamples {
  import opened Wrappers
  import opened Strings
  import opened Transliteration

  // Single table facts, one per lemma so that each stays small.

  lemma KruNotConsonant() ensures "kru" !in Consonants {}
  lemma KrNotConsonant() ensures "kr" !in Consonants {}
  lemma KIsConsonant() ensures "k" in Consonants && Consonants["k"] == "ಕ್" {}
  lemma RuIsSign() ensures "ru" in Matras && Matras["ru"] == "ೃ" {}

  /** "kru": the three- and two-letter chunks are not consonants, "k" is, and "ru" is the
      vocalic r sign, so the consonant takes the sign instead of the virama. */
  lemma ExampleKru()
    ensures Translit("kru") == "ಕೃ"
  {
    var t := GetTransliterationMap();
    KruNotConsonant(); KrNotConsonant(); KIsConsonant(); RuIsSign();
    assert Chunk("kru", 0, 3) == "kru" && Chunk("kru", 0, 2) == "kr" && Chunk("kru", 0, 1) == "k";
    assert Chunk("kru", 1, 2) == "ru";
    ConsonantOrder("kru", 0, t.consonants);
    SignOrder("kru", 1, t.matras);
    StepAtSign("kru", 0, t, 1, 2);
    assert StepAt("kru", 0, t) == Step("ಕೃ", 3);
    UnfoldTranslitFrom("kru", 0, t);
  }

  lemma ChhIsConsonant() ensures "chh" in Consonants && Consonants["chh"] == "ಛ್" {}

  /** "chh": the three-letter aspirate wins over "ch", and with nothing after it the consonant
      keeps its virama. */
  lemma ExampleChh()
    ensures Translit("chh") == "ಛ್"
  {
    var t := GetTransliterationMap();
    ChhIsConsonant();
    assert Chunk("chh", 0, 3) == "chh";
    ConsonantOrder("chh", 0, t.consonants);
    SignOrder("chh", 3, t.matras);
    StepAtHalant("chh", 0, t, 3);
    UnfoldTranslitFrom("chh", 0, t);
  }

  lemma ChIsConsonant() ensures "ch" in Consonants && Consonants["ch"] == "ಚ್" {}

  /** "ch": the three-character slice is cut short to "ch", which is a key, so the loop index
      jumps to 3, past the end of the two-character text, and the loop stops. */
  lemma ExampleShortSliceOvershoots()
    ensures StepAt("ch", 0, GetTransliterationMap()) == Step("ಚ್", 3)
    ensures Translit("ch") == "ಚ್"
  {
    var t := GetTransliterationMap();
    ChIsConsonant();
    assert Chunk("ch", 0, 3) == "ch";
    ConsonantOrder("ch", 0, t.consonants);
    SignOrder("ch", 3, t.matras);
    StepAtHalant("ch", 0, t, 3);
    UnfoldTranslitFrom("ch", 0, t);
  }

  lemma AaNotConsonant() ensures "aa" !in Consonants {}
  lemma ANotConsonant() ensures "a" !in Consonants {}
  lemma AaIsVowel() ensures "aa" in Vowels && Vowels["aa"] == "ಆ" {}

  /** "aa": no consonant starts here, and the two-letter vowel wins over "a". */
  lemma ExampleAa()
    ensures Translit("aa") == "ಆ"
  {
    var t := GetTransliterationMap();
    AaNotConsonant(); ANotConsonant(); AaIsVowel();
    assert Chunk("aa", 0, 3) == "aa" && Chunk("aa", 0, 2) == "aa" && Chunk("aa", 0, 1) == "a";
    ConsonantOrder("aa", 0, t.consonants);
    VowelOrder("aa", 0, t.vowels);
    StepAtVowel("aa", 0, t, 2);
    UnfoldTranslitFrom("aa", 0, t);
  }

  lemma AmNotConsonant() ensures "am" !in Consonants {}
  lemma AmIsVowel() ensures "am" in Vowels && Vowels["am"] == "ಅಂ" {}

  /** "am": the vowel with anusvara is one table entry of two letters. */
  lemma ExampleAm()
    ensures Translit("am") == "ಅಂ"
  {
    var t := GetTransliterationMap();
    AmNotConsonant(); ANotConsonant(); AmIsVowel();
    assert Chunk("am", 0, 3) == "am" && Chunk("am", 0, 2) == "am" && Chunk("am", 0, 1) == "a";
    ConsonantOrder("am", 0, t.consonants);
    VowelOrder("am", 0, t.vowels);
    StepAtVowel("am", 0, t, 2);
    UnfoldTranslitFrom("am", 0, t);
  }

  lemma KaNotConsonant() ensures "ka" !in Consonants {}
  lemma AIsSign() ensures "a" in Matras && Matras["a"] == "" {}

  /** "KA": the chunks are lower-cased before the lookup, so capitals match too. */
  lemma ExampleCapitals()
    ensures Translit("KA") == "ಕ"
  {
    var t := GetTransliterationMap();
    KaNotConsonant(); KIsConsonant(); AIsSign();
    assert Chunk("KA", 0, 3) == "ka" && Chunk("KA", 0, 2) == "ka" && Chunk("KA", 0, 1) == "k";
    assert Chunk("KA", 1, 1) == "a";
    ConsonantOrder("KA", 0, t.consonants);
    SignOrder("KA", 1, t.matras);
    StepAtSign("KA", 0, t, 1, 1);
    assert StepAt("KA", 0, t) == Step("ಕ", 2);
    UnfoldTranslitFrom("KA", 0, t);
  }

  lemma AIsVowel() ensures "a" in Vowels && Vowels["a"] == "ಅ" {}

  lemma XaFirstStep()
    ensures StepAt("Xa", 0, GetTransliterationMap()) == Step("X", 1)
  {
    KeyInitialsOfTables(Lower('X'));
    UnmatchedCharCopied("Xa", 0, GetTransliterationMap());
  }

  lemma XaSecondStep()
    ensures StepAt("Xa", 1, GetTransliterationMap()) == Step("ಅ", 3)
  {
    var t := GetTransliterationMap();
    ANotConsonant(); AIsVowel();
    assert Chunk("Xa", 1, 3) == "a" && Chunk("Xa", 1, 2) == "a" && Chunk("Xa", 1, 1) == "a";
    ConsonantOrder("Xa", 1, t.consonants);
    VowelOrder("Xa", 1, t.vowels);
    StepAtVowel("Xa", 1, t, 2);
  }

  /** "Xa": 'x' begins no key, so 'X' is copied with its case kept; then "a" is a vowel. */
  lemma ExampleCopyKeepsCase()
    ensures Translit("Xa") == "Xಅ"
  {
    var t := GetTransliterationMap();
    XaFirstStep();
    XaSecondStep();
    UnfoldTranslitFrom("Xa", 0, t);
    UnfoldTranslitFrom("Xa", 1, t);
  }

  // "namaskara", one lemma per iteration of the loop.

  lemma NamNotConsonant() ensures "nam" !in Consonants {}
  lemma NaNotConsonant() ensures "na" !in Consonants {}
  lemma NIsConsonant() ensures "n" in Consonants && Consonants["n"] == "ನ್" {}
  lemma MasNotConsonant() ensures "mas" !in Consonants {}
  lemma MaNotConsonant() ensures "ma" !in Consonants {}
  lemma MIsConsonant() ensures "m" in Consonants && Consonants["m"] == "ಮ್" {}
  lemma SkaNotConsonant() ensures "ska" !in Consonants {}
  lemma SkNotConsonant() ensures "sk" !in Consonants {}
  lemma SIsConsonant() ensures "s" in Consonants && Consonants["s"] == "ಸ್" {}
  lemma KarNotConsonant() ensures "kar" !in Consonants {}
  lemma RaNotConsonant() ensures "ra" !in Consonants {}
  lemma RIsConsonant() ensures "r" in Consonants && Consonants["r"] == "ರ್" {}
  lemma AmNotSign() ensures "am" !in Matras {}
  lemma AsNotSign() ensures "as" !in Matras {}
  lemma KaNotSign() ensures "ka" !in Matras && "k" !in Matras {}
  lemma ArNotSign() ensures "ar" !in Matras {}

  lemma NThenA() ensures [Consonants["n"][0]] + Matras["a"] == "ನ" {}
  lemma MThenA() ensures [Consonants["m"][0]] + Matras["a"] == "ಮ" {}
  lemma KThenA() ensures [Consonants["k"][0]] + Matras["a"] == "ಕ" {}
  lemma RThenA() ensures [Consonants["r"][0]] + Matras["a"] == "ರ" {}

  const Namaskara: string := "namaskara"

  lemma NamaskaraChunks0()
    ensures Chunk(Namaskara, 0, 3) == "nam" && Chunk(Namaskara, 0, 2) == "na" && Chunk(Namaskara, 0, 1) == "n"
    ensures Chunk(Namaskara, 1, 2) == "am" && Chunk(Namaskara, 1, 1) == "a"
  {
    ChunksOfLowerCaseText(Namaskara);
  }

  lemma NamaskaraConsonant0()
    ensures FirstKey(Namaskara, 0, ConsonantWidths, Consonants) == Some(1)
  {
    NamaskaraChunks0();
    NamNotConsonant(); NaNotConsonant(); NIsConsonant();
    ConsonantOrder(Namaskara, 0, Consonants);
  }

  lemma NamaskaraSign1()
    ensures FittingKey(Namaskara, 1, SignWidths, Matras) == Some(1)
  {
    NamaskaraChunks0();
    AmNotSign(); AIsSign();
    SignOrder(Namaskara, 1, Matras);
  }

  /** "n", then the inherent vowel "a" (the two-letter "am" is no vowel sign). */
  lemma NamaskaraStep0()
    ensures StepAt(Namaskara, 0, GetTransliterationMap()) == Step("ನ", 2)
  {
    var t := GetTransliterationMap();
    NamaskaraConsonant0(); NamaskaraSign1();
    StepAtSign(Namaskara, 0, t, 1, 1);
    NamaskaraChunks0(); NThenA();
  }

  lemma NamaskaraChunks2()
    ensures Chunk(Namaskara, 2, 3) == "mas" && Chunk(Namaskara, 2, 2) == "ma" && Chunk(Namaskara, 2, 1) == "m"
    ensures Chunk(Namaskara, 3, 2) == "as" && Chunk(Namaskara, 3, 1) == "a"
  {
  }

  lemma NamaskaraConsonant2()
    ensures FirstKey(Namaskara, 2, ConsonantWidths, Consonants) == Some(1)
  {
    NamaskaraChunks2();
    MasNotConsonant(); MaNotConsonant(); MIsConsonant();
    ConsonantOrder(Namaskara, 2, Consonants);
  }

  lemma NamaskaraSign3()
    ensures FittingKey(Namaskara, 3, SignWidths, Matras) == Some(1)
  {
    NamaskaraChunks2();
    AsNotSign(); AIsSign();
    SignOrder(Namaskara, 3, Matras);
  }

  lemma NamaskaraStep2()
    ensures StepAt(Namaskara, 2, GetTransliterationMap()) == Step("ಮ", 4)
  {
    var t := GetTransliterationMap();
    NamaskaraConsonant2(); NamaskaraSign3();
    StepAtSign(Namaskara, 2, t, 1, 1);
    NamaskaraChunks2(); MThenA();
  }

  lemma NamaskaraChunks4()
    ensures Chunk(Namaskara, 4, 3) == "ska" && Chunk(Namaskara, 4, 2) == "sk" && Chunk(Namaskara, 4, 1) == "s"
    ensures Chunk(Namaskara, 5, 2) == "ka" && Chunk(Namaskara, 5, 1) == "k"
  {
  }

  lemma NamaskaraConsonant4()
    ensures FirstKey(Namaskara, 4, ConsonantWidths, Consonants) == Some(1)
  {
    NamaskaraChunks4();
    SkaNotConsonant(); SkNotConsonant(); SIsConsonant();
    ConsonantOrder(Namaskara, 4, Consonants);
  }

  lemma NamaskaraSign5()
    ensures FittingKey(Namaskara, 5, SignWidths, Matras) == None
  {
    NamaskaraChunks4();
    KaNotSign();
    SignOrder(Namaskara, 5, Matras);
  }

  /** "s" is followed by a consonant, so it keeps its virama and forms the cluster "ಸ್ಕ". */
  lemma NamaskaraStep4()
    ensures StepAt(Namaskara, 4, GetTransliterationMap()) == Step("ಸ್", 5)
  {
    var t := GetTransliterationMap();
    NamaskaraConsonant4(); NamaskaraSign5();
    StepAtHalant(Namaskara, 4, t, 1);
    NamaskaraChunks4();
  }

  lemma NamaskaraChunks5()
    ensures Chunk(Namaskara, 5, 3) == "kar" && Chunk(Namaskara, 5, 2) == "ka" && Chunk(Namaskara, 5, 1) == "k"
    ensures Chunk(Namaskara, 6, 2) == "ar" && Chunk(Namaskara, 6, 1) == "a"
  {
  }

  lemma NamaskaraConsonant5()
    ensures FirstKey(Namaskara, 5, ConsonantWidths, Consonants) == Some(1)
  {
    NamaskaraChunks5();
    KarNotConsonant(); KaNotConsonant(); KIsConsonant();
    ConsonantOrder(Namaskara, 5, Consonants);
  }

  lemma NamaskaraSign6()
    ensures FittingKey(Namaskara, 6, SignWidths, Matras) == Some(1)
  {
    NamaskaraChunks5();
    ArNotSign(); AIsSign();
    SignOrder(Namaskara, 6, Matras);
  }

  lemma NamaskaraStep5()
    ensures StepAt(Namaskara, 5, GetTransliterationMap()) == Step("ಕ", 7)
  {
    var t := GetTransliterationMap();
    NamaskaraConsonant5(); NamaskaraSign6();
    StepAtSign(Namaskara, 5, t, 1, 1);
    NamaskaraChunks5(); KThenA();
  }

  lemma NamaskaraChunks7()
    ensures Chunk(Namaskara, 7, 3) == "ra" && Chunk(Namaskara, 7, 2) == "ra" && Chunk(Namaskara, 7, 1) == "r"
    ensures Chunk(Namaskara, 8, 1) == "a"
  {
  }

  lemma NamaskaraConsonant7()
    ensures FirstKey(Namaskara, 7, ConsonantWidths, Consonants) == Some(1)
  {
    NamaskaraChunks7();
    RaNotConsonant(); RIsConsonant();
    ConsonantOrder(Namaskara, 7, Consonants);
  }

  lemma NamaskaraSign8()
    ensures FittingKey(Namaskara, 8, SignWidths, Matras) == Some(1)
  {
    NamaskaraChunks7();
    AIsSign();
    SignOrder(Namaskara, 8, Matras);
  }

  /** At the end the three-letter slice is cut short to "ra", and the final "a" is the one
      sign width that still fits. */
  lemma NamaskaraStep7()
    ensures StepAt(Namaskara, 7, GetTransliterationMap()) == Step("ರ", 9)
  {
    var t := GetTransliterationMap();
    NamaskaraConsonant7(); NamaskaraSign8();
    StepAtSign(Namaskara, 7, t, 1, 1);
    NamaskaraChunks7(); RThenA();
  }

  lemma NamaskaraConcat5() ensures "ಕ" + "ರ" == "ಕರ" {}
  lemma NamaskaraConcat4() ensures "ಸ್" + "ಕರ" == "ಸ್ಕರ" {}
  lemma NamaskaraConcat2() ensures "ಮ" + "ಸ್ಕರ" == "ಮಸ್ಕರ" {}
  lemma NamaskaraConcat0() ensures "ನ" + "ಮಸ್ಕರ" == "ನಮಸ್ಕರ" {}

  lemma NamaskaraFrom7()
    ensures TranslitFrom(Namaskara, 7, GetTransliterationMap()) == "ರ"
  {
    NamaskaraStep7();
    UnfoldTranslitFrom(Namaskara, 7, GetTransliterationMap());
  }

  lemma NamaskaraFrom5()
    ensures TranslitFrom(Namaskara, 5, GetTransliterationMap()) == "ಕರ"
  {
    NamaskaraStep5();
    NamaskaraFrom7();
    StepThen(Namaskara, 5, GetTransliterationMap(), "ಕ", 7, "ರ");
    NamaskaraConcat5();
  }

  lemma NamaskaraFrom4()
    ensures TranslitFrom(Namaskara, 4, GetTransliterationMap()) == "ಸ್ಕರ"
  {
    NamaskaraStep4();
    NamaskaraFrom5();
    StepThen(Namaskara, 4, GetTransliterationMap(), "ಸ್", 5, "ಕರ");
    NamaskaraConcat4();
  }

  lemma NamaskaraFrom2()
    ensures TranslitFrom(Namaskara, 2, GetTransliterationMap()) == "ಮಸ್ಕರ"
  {
    NamaskaraStep2();
    NamaskaraFrom4();
    StepThen(Namaskara, 2, GetTransliterationMap(), "ಮ", 4, "ಸ್ಕರ");
    NamaskaraConcat2();
  }

  /** "namaskara" becomes "ನಮಸ್ಕರ". */
  lemma ExampleNamaskara()
    ensures Translit(Namaskara) == "ನಮಸ್ಕರ"
  {
    NamaskaraStep0();
    NamaskaraFrom2();
    StepThen(Namaskara, 0, GetTransliterationMap(), "ನ", 2, "ಮಸ್ಕರ");
    NamaskaraConcat0();
  }
}
