/** The Latin-to-Kannada transliteration encoder of transliterate.py: three lookup tables and a
    greedy longest-match scanner over the input text. */
module Transliteration {
  import opened Wrappers
  import opened Strings

  /** U+0CCD KANNADA SIGN VIRAMA, the "halant" that kills a consonant's inherent vowel. */
  const Virama: char := '\U{0CCD}'

  /** Independent vowels (transliterate.py:9-16). */
  const Vowels: map<string, string> := map[
    "aa" := "ಆ", "a" := "ಅ",
    "ii" := "ಈ", "i" := "ಇ",
    "uu" := "ಊ", "u" := "ಉ",
    "e" := "ಎ", "ee" := "ಏ", "ai" := "ಐ",
    "o" := "ಒ", "oo" := "ಓ", "au" := "ಔ",
    "am" := "ಅಂ", "ah" := "ಅಃ"
  ]

  /** Consonants in their halant form (transliterate.py:25-33). The literal repeats the keys
      "th", "d", "dh", "n" and "l"; as in the Python dict literal, a map display keeps the last
      value given for a repeated key. */
  const Consonants: map<string, string> := map[
    "k" := "ಕ್", "kh" := "ಖ್", "g" := "ಗ್", "gh" := "ಘ್", "ng" := "ಙ್",
    "ch" := "ಚ್", "chh" := "ಛ್", "j" := "ಜ್", "jh" := "ಝ್", "ny" := "ಞ್",
    "t" := "ಟ್", "th" := "ಠ್", "d" := "ಡ್", "dh" := "ಢ್", "n" := "ಣ್",
    "th" := "ತ್", "d" := "ದ್", "dh" := "ಧ್", "n" := "ನ್",
    "p" := "ಪ್", "ph" := "ಫ್", "b" := "ಬ್", "bh" := "ಭ್", "m" := "ಮ್",
    "y" := "ಯ್", "r" := "ರ್", "l" := "ಲ್", "v" := "ವ್", "w" := "ವ್",
    "sh" := "ಶ್", "shh" := "ಷ್", "s" := "ಸ್", "h" := "ಹ್", "l" := "ಳ್"
  ]

  /** Dependent vowel signs (transliterate.py:37-43); "a" is the inherent vowel and adds nothing. */
  const Matras: map<string, string> := map[
    "a" := "",
    "aa" := "ಾ", "i" := "ಿ", "ii" := "ೀ",
    "u" := "ು", "uu" := "ೂ", "ru" := "ೃ",
    "e" := "ೆ", "ee" := "ೇ", "ai" := "ೈ",
    "o" := "ೊ", "oo" := "ೋ", "au" := "ೌ"
  ]

  /** The widths the scanner tries, longest first (transliterate.py:57, 81, 102). */
  const ConsonantWidths: seq<nat> := [3, 2, 1]
  const SignWidths: seq<nat> := [2, 1]
  const VowelWidths: seq<nat> := [2, 1]

  function Min(a: int, b: int): int {
    if a <= b then a else b
  }

  /** `text[i:i+width].lower()`: Python cuts the slice short at the end of the text. */
  function Chunk(text: string, i: nat, width: nat): string
    requires i <= |text|
  {
    LowerStr(text[i..Min(i + width, |text|)])
  }

  /** The `for width in widths` loop of transliterate.py:57-62 and 102-107: the first width whose
      chunk at `i` is a key of `table`. */
  function FirstKey(text: string, i: nat, widths: seq<nat>, table: map<string, string>): (w: Option<nat>)
    requires i <= |text|
    ensures w.Some? ==> w.value in widths && Chunk(text, i, w.value) in table
    ensures w.None? ==> forall v :: v in widths ==> Chunk(text, i, v) !in table
    decreases |widths|
  {
    if widths == [] then None
    else if Chunk(text, i, widths[0]) in table then Some(widths[0])
    else FirstKey(text, i, widths[1..], table)
  }

  /** The vowel-sign lookahead of transliterate.py:81-87: like FirstKey, but a width is only
      tried when `i + width <= |text|`, so near the end of the text no slice is cut short. */
  function FittingKey(text: string, i: nat, widths: seq<nat>, table: map<string, string>): (w: Option<nat>)
    ensures w.Some? ==> w.value in widths && i + w.value <= |text| && Chunk(text, i, w.value) in table
    ensures w.None? ==> forall v :: v in widths && i + v <= |text| ==> Chunk(text, i, v) !in table
    decreases |widths|
  {
    if widths == [] then None
    else if i + widths[0] <= |text| && Chunk(text, i, widths[0]) in table then Some(widths[0])
    else FittingKey(text, i, widths[1..], table)
  }

  /** The three tables `get_transliteration_map()` returns (transliterate.py:4-45). */
  datatype Tables = Tables(vowels: map<string, string>, consonants: map<string, string>, matras: map<string, string>)

  /** What the scanner needs of its tables: every consonant is a base letter followed by the
      virama, so `cons_halant[0]` (transliterate.py:74) is the base letter. */
  predicate WellFormed(t: Tables) {
    forall key :: key in t.consonants ==> |t.consonants[key]| == 2 && t.consonants[key][1] == Virama
  }

  /** `get_transliteration_map()` (transliterate.py:4-45). */
  function GetTransliterationMap(): (t: Tables)
    ensures WellFormed(t)
  {
    Tables(Vowels, Consonants, Matras)
  }

  /** What one iteration of the `while i < n` loop appends, and where it leaves `i`. */
  datatype Step = Step(out: string, next: nat)

  /** One iteration of transliterate.py:53-115 at position `i`. */
  function StepAt(text: string, i: nat, t: Tables): (s: Step)
    requires i < |text| && WellFormed(t)
    ensures i < s.next <= i + 5
  {
    match FirstKey(text, i, ConsonantWidths, t.consonants)
    case Some(lenC) =>
      var consHalant := t.consonants[Chunk(text, i, lenC)];
      var j := i + lenC;
      (match FittingKey(text, j, SignWidths, t.matras)
       case Some(lenV) => Step([consHalant[0]] + t.matras[Chunk(text, j, lenV)], j + lenV)
       case None => Step(consHalant, j))
    case None =>
      (match FirstKey(text, i, VowelWidths, t.vowels)
       case Some(lenV) => Step(t.vowels[Chunk(text, i, lenV)], i + lenV)
       case None => Step([text[i]], i + 1))
  }

  // The four branches of StepAt, one lemma each.

  lemma StepAtSign(text: string, i: nat, t: Tables, lenC: nat, lenV: nat)
    requires i < |text| && WellFormed(t)
    requires FirstKey(text, i, ConsonantWidths, t.consonants) == Some(lenC)
    requires FittingKey(text, i + lenC, SignWidths, t.matras) == Some(lenV)
    ensures StepAt(text, i, t) ==
      Step([t.consonants[Chunk(text, i, lenC)][0]] + t.matras[Chunk(text, i + lenC, lenV)], i + lenC + lenV)
  {
  }

  lemma StepAtHalant(text: string, i: nat, t: Tables, lenC: nat)
    requires i < |text| && WellFormed(t)
    requires FirstKey(text, i, ConsonantWidths, t.consonants) == Some(lenC)
    requires FittingKey(text, i + lenC, SignWidths, t.matras) == None
    ensures StepAt(text, i, t) == Step(t.consonants[Chunk(text, i, lenC)], i + lenC)
  {
  }

  lemma StepAtVowel(text: string, i: nat, t: Tables, lenV: nat)
    requires i < |text| && WellFormed(t)
    requires FirstKey(text, i, ConsonantWidths, t.consonants) == None
    requires FirstKey(text, i, VowelWidths, t.vowels) == Some(lenV)
    ensures StepAt(text, i, t) == Step(t.vowels[Chunk(text, i, lenV)], i + lenV)
  {
  }

  lemma StepAtCopy(text: string, i: nat, t: Tables)
    requires i < |text| && WellFormed(t)
    requires FirstKey(text, i, ConsonantWidths, t.consonants) == None
    requires FirstKey(text, i, VowelWidths, t.vowels) == None
    ensures StepAt(text, i, t) == Step([text[i]], i + 1)
  {
  }

  /** What the loop appends from position `i` on; `i` may have run past the end of the text. */
  function TranslitFrom(text: string, i: nat, t: Tables): string
    requires WellFormed(t)
    decreases |text| - i
  {
    if i >= |text| then "" else
    var s := StepAt(text, i, t);
    s.out + TranslitFrom(text, s.next, t)
  }

  lemma UnfoldTranslitFrom(text: string, i: nat, t: Tables)
    requires i < |text| && WellFormed(t)
    ensures TranslitFrom(text, i, t) == StepAt(text, i, t).out + TranslitFrom(text, StepAt(text, i, t).next, t)
  {
  }

  /** Chains one step onto the output of the rest of the text. */
  lemma StepThen(text: string, i: nat, t: Tables, out: string, next: nat, rest: string)
    requires i < |text| && WellFormed(t)
    requires StepAt(text, i, t) == Step(out, next)
    requires TranslitFrom(text, next, t) == rest
    ensures TranslitFrom(text, i, t) == out + rest
  {
  }

  lemma AppendAssoc(a: string, b: string, c: string)
    ensures (a + b) + c == a + (b + c)
  {
  }

  /** `transliterate(text)` as a function of the text. */
  function Translit(text: string): string {
    TranslitFrom(text, 0, GetTransliterationMap())
  }

  /** A `for width in widths: ... if chunk in table: ...; break` loop (transliterate.py:57-62,
      102-107): the matched key and its width, if there is one. */
  method LongestKey(text: string, i: nat, widths: seq<nat>, table: map<string, string>)
    returns (matched: Option<string>, len: nat)
    requires i <= |text|
    ensures matched.Some? <==> FirstKey(text, i, widths, table).Some?
    ensures matched.Some? ==> len == FirstKey(text, i, widths, table).value && matched.value == Chunk(text, i, len)
  {
    matched, len := None, 0;
    var k := 0;
    while k < |widths|
      invariant 0 <= k <= |widths|
      invariant FirstKey(text, i, widths[k..], table) == FirstKey(text, i, widths, table)
    {
      var chunk := Chunk(text, i, widths[k]);
      if chunk in table {
        matched, len := Some(chunk), widths[k];
        break;
      }
      k := k + 1;
    }
  }

  /** The vowel-sign loop of transliterate.py:81-87, which tries a width only if it fits. */
  method FittingSign(text: string, i: nat, widths: seq<nat>, table: map<string, string>)
    returns (matched: Option<string>, len: nat)
    ensures matched.Some? <==> FittingKey(text, i, widths, table).Some?
    ensures matched.Some? ==> len == FittingKey(text, i, widths, table).value && i + len <= |text| && matched.value == Chunk(text, i, len)
  {
    matched, len := None, 0;
    var k := 0;
    while k < |widths|
      invariant 0 <= k <= |widths|
      invariant FittingKey(text, i, widths[k..], table) == FittingKey(text, i, widths, table)
    {
      if i + widths[k] <= |text| {
        var chunk := Chunk(text, i, widths[k]);
        if chunk in table {
          matched, len := Some(chunk), widths[k];
          break;
        }
      }
      k := k + 1;
    }
  }

  /** The body of the `while i < n` loop (transliterate.py:54-115): what it appends at `i`,
      and the new value of `i`. */
  method ScanStep(text: string, i: nat, t: Tables) returns (piece: string, next: nat)
    requires i < |text| && WellFormed(t)
    ensures StepAt(text, i, t) == Step(piece, next)
  {
    var matchC, lenC := LongestKey(text, i, ConsonantWidths, t.consonants);
    if matchC.Some? {
      var consHalant := t.consonants[matchC.value];
      var baseChar := consHalant[0];
      next := i + lenC;
      var matchV, lenV := FittingSign(text, next, SignWidths, t.matras);
      if matchV.Some? {
        piece := [baseChar] + t.matras[matchV.value];
        StepAtSign(text, i, t, lenC, lenV);
        next := next + lenV;
      } else {
        // No vowel: keep the halant.
        piece := consHalant;
        StepAtHalant(text, i, t, lenC);
      }
    } else {
      var matchIndV, lenIndV := LongestKey(text, i, VowelWidths, t.vowels);
      if matchIndV.Some? {
        piece := t.vowels[matchIndV.value];
        StepAtVowel(text, i, t, lenIndV);
        next := i + lenIndV;
      } else {
        // Unknown: keep the character as it is.
        piece := [text[i]];
        StepAtCopy(text, i, t);
        next := i + 1;
      }
    }
  }

  /** The `while i < n` scan of transliterate.py:49-117 over the tables `t`. */
  method Scan(text: string, t: Tables) returns (result: string)
    requires WellFormed(t)
    ensures result == TranslitFrom(text, 0, t)
  {
    result := "";
    var i: nat := 0;
    var n := |text|;
    while i < n
      invariant result + TranslitFrom(text, i, t) == TranslitFrom(text, 0, t)
      decreases n - i
    {
      ghost var start := i;
      ghost var before := result;
      var piece;
      piece, i := ScanStep(text, i, t);
      result := result + piece;
      ScanInvariantStep(text, t, start, before, piece, i);
    }
  }

  /** One iteration that appends `piece` and moves from `start` to `next` keeps Scan's invariant. */
  lemma ScanInvariantStep(text: string, t: Tables, start: nat, before: string, piece: string, next: nat)
    requires start < |text| && WellFormed(t)
    requires StepAt(text, start, t) == Step(piece, next)
    requires before + TranslitFrom(text, start, t) == TranslitFrom(text, 0, t)
    ensures (before + piece) + TranslitFrom(text, next, t) == TranslitFrom(text, 0, t)
  {
    UnfoldTranslitFrom(text, start, t);
    AppendAssoc(before, piece, TranslitFrom(text, next, t));
  }

  /** `transliterate(text)` (transliterate.py:47-117). */
  method Transliterate(text: string) returns (result: string)
    ensures result == Translit(text)
  {
    var t := GetTransliterationMap();
    result := Scan(text, t);
  }

  // ---------------------------------------------------------------------------------------
  // The order in which widths are tried.

  /** With widths tried from longest to shortest, the width found is the longest whose chunk
      is a key. */
  lemma {:induction false} FirstKeyIsLongest(text: string, i: nat, widths: seq<nat>, table: map<string, string>)
    requires i <= |text|
    requires forall a, b :: 0 <= a < b < |widths| ==> widths[a] > widths[b]
    ensures FirstKey(text, i, widths, table).Some? ==>
      forall v :: v in widths && v > FirstKey(text, i, widths, table).value ==> Chunk(text, i, v) !in table
    decreases |widths|
  {
    if widths != [] && Chunk(text, i, widths[0]) !in table {
      FirstKeyIsLongest(text, i, widths[1..], table);
      assert forall v :: v in widths ==> v == widths[0] || v in widths[1..];
    }
  }

  /** A consonant is matched on the chunk of 3 characters, else of 2, else of 1 (transliterate.py:57-62). */
  lemma ConsonantOrder(text: string, i: nat, table: map<string, string>)
    requires i <= |text|
    ensures FirstKey(text, i, ConsonantWidths, table) ==
      if Chunk(text, i, 3) in table then Some(3)
      else if Chunk(text, i, 2) in table then Some(2)
      else if Chunk(text, i, 1) in table then Some(1)
      else None
  {
    assert ConsonantWidths[1..] == [2, 1] && ConsonantWidths[1..][1..] == [1];
  }

  /** A vowel sign is matched on 2 characters, else on 1, and only where they fit (transliterate.py:81-87). */
  lemma SignOrder(text: string, i: nat, table: map<string, string>)
    ensures FittingKey(text, i, SignWidths, table) ==
      if i + 2 <= |text| && Chunk(text, i, 2) in table then Some(2)
      else if i + 1 <= |text| && Chunk(text, i, 1) in table then Some(1)
      else None
  {
    assert SignWidths[1..] == [1];
  }

  /** An independent vowel is matched on 2 characters, else on 1 (transliterate.py:102-107). */
  lemma VowelOrder(text: string, i: nat, table: map<string, string>)
    requires i <= |text|
    ensures FirstKey(text, i, VowelWidths, table) ==
      if Chunk(text, i, 2) in table then Some(2)
      else if Chunk(text, i, 1) in table then Some(1)
      else None
  {
    assert VowelWidths[1..] == [1];
  }

  // ---------------------------------------------------------------------------------------
  // The duplicated consonant keys.

  /** The later of two entries with the same key wins (transliterate.py:28-32). */
  lemma DuplicateKeysKeepLastValue()
    ensures Consonants["th"] == "ತ್" && Consonants["d"] == "ದ್" && Consonants["dh"] == "ಧ್"
    ensures Consonants["n"] == "ನ್" && Consonants["l"] == "ಳ್"
  {
  }

  /** ಠ, ಡ, ಢ, ಣ and ಲ: the letters of the entries the duplicates override. */
  const ShadowedLetters: set<char> := {'\U{0CA0}', '\U{0CA1}', '\U{0CA2}', '\U{0CA3}', '\U{0CB2}'}

  /** `c` occurs in a value of one of the tables. */
  predicate FromTables(t: Tables, c: char) {
    || (exists key :: key in t.vowels && c in t.vowels[key])
    || (exists key :: key in t.consonants && c in t.consonants[key])
    || (exists key :: key in t.matras && c in t.matras[key])
  }

  /** None of the five letters occurs in any value of the tables. */
  lemma ShadowedLettersNotInTables()
    ensures forall c :: c in ShadowedLetters ==> !FromTables(GetTransliterationMap(), c)
  {
    ShadowedNotInVowels();
    ShadowedNotInConsonants();
    ShadowedNotInMatras();
  }

  lemma ShadowedNotInVowels()
    ensures forall key, c :: key in Vowels && c in Vowels[key] ==> c !in ShadowedLetters
  {
  }

  lemma ShadowedNotInConsonants()
    ensures forall key, c :: key in Consonants && c in Consonants[key] ==> c !in ShadowedLetters
  {
    ShadowedNotBaseLetter();
    var t := GetTransliterationMap();
    forall key, c | key in Consonants && c in Consonants[key] ensures c !in ShadowedLetters {
      assert key in t.consonants;
      assert c == Consonants[key][0] || c == Consonants[key][1];
    }
  }

  lemma ShadowedNotBaseLetter()
    ensures forall key :: key in Consonants ==> Consonants[key][0] !in ShadowedLetters
  {
  }

  lemma ShadowedNotInMatras()
    ensures forall key, c :: key in Matras && c in Matras[key] ==> c !in ShadowedLetters
  {
  }

  /** Every character one step appends is the character at `i` or comes from a table. */
  lemma StepOutChars(text: string, i: nat, t: Tables)
    requires i < |text| && WellFormed(t)
    ensures forall c :: c in StepAt(text, i, t).out ==> c == text[i] || FromTables(t, c)
  {
    match FirstKey(text, i, ConsonantWidths, t.consonants) {
      case Some(lenC) =>
        var key := Chunk(text, i, lenC);
        match FittingKey(text, i + lenC, SignWidths, t.matras) {
          case Some(lenV) =>
            StepAtSign(text, i, t, lenC, lenV);
            assert t.consonants[key][0] in t.consonants[key];
          case None =>
            StepAtHalant(text, i, t, lenC);
        }
      case None =>
        match FirstKey(text, i, VowelWidths, t.vowels) {
          case Some(lenV) => StepAtVowel(text, i, t, lenV);
          case None => StepAtCopy(text, i, t);
        }
    }
  }

  /** Every character of the output comes from the text or from a table. */
  lemma {:induction false} OutputCharsFromTextOrTables(text: string, i: nat, t: Tables)
    requires WellFormed(t)
    ensures forall c :: c in TranslitFrom(text, i, t) ==> c in text || FromTables(t, c)
    decreases |text| - i
  {
    if i < |text| {
      var s := StepAt(text, i, t);
      StepOutChars(text, i, t);
      OutputCharsFromTextOrTables(text, s.next, t);
      UnfoldTranslitFrom(text, i, t);
    }
  }

  /** Since the duplicates override them, ಠ, ಡ, ಢ, ಣ and ಲ appear in the output only where the
      text itself holds them. */
  lemma ShadowedLettersOnlyCopied(text: string)
    ensures forall c :: c in Translit(text) && c in ShadowedLetters ==> c in text
  {
    OutputCharsFromTextOrTables(text, 0, GetTransliterationMap());
    ShadowedLettersNotInTables();
  }

  // ---------------------------------------------------------------------------------------
  // Characters that begin no key.

  /** Some consonant or independent-vowel key begins with `c`. */
  predicate BeginsKey(t: Tables, c: char) {
    || (exists key :: key in t.consonants && key != [] && key[0] == c)
    || (exists key :: key in t.vowels && key != [] && key[0] == c)
  }

  lemma ChunkStart(text: string, i: nat, w: nat)
    requires i < |text| && 1 <= w
    ensures Chunk(text, i, w) != [] && Chunk(text, i, w)[0] == Lower(text[i])
  {
  }

  /** A character whose lower case begins no key is copied as it is, and `i` advances by one
      (transliterate.py:113-115). */
  lemma UnmatchedCharCopied(text: string, i: nat, t: Tables)
    requires i < |text| && WellFormed(t)
    requires !BeginsKey(t, Lower(text[i]))
    ensures StepAt(text, i, t) == Step([text[i]], i + 1)
  {
    forall w | w in ConsonantWidths ensures Chunk(text, i, w) !in t.consonants {
      ChunkStart(text, i, w);
    }
    forall w | w in VowelWidths ensures Chunk(text, i, w) !in t.vowels {
      ChunkStart(text, i, w);
    }
    StepAtCopy(text, i, t);
  }

  /** Text none of whose characters begins a key is returned unchanged. */
  lemma {:induction false} UnmatchedTextUnchanged(text: string, i: nat, t: Tables)
    requires i <= |text| && WellFormed(t)
    requires forall k :: i <= k < |text| ==> !BeginsKey(t, Lower(text[k]))
    ensures TranslitFrom(text, i, t) == text[i..]
    decreases |text| - i
  {
    if i < |text| {
      UnmatchedCharCopied(text, i, t);
      UnmatchedTextUnchanged(text, i + 1, t);
      UnfoldTranslitFrom(text, i, t);
      assert text[i..] == [text[i]] + text[i + 1..];
    }
  }

  /** The first letters of the consonant and independent-vowel keys. */
  const KeyInitials: set<char> := {
    'k', 'g', 'n', 'c', 'j', 't', 'd', 'p', 'b', 'm', 'y', 'r', 'l', 'v', 'w', 's', 'h',
    'a', 'i', 'u', 'e', 'o'
  }

  lemma KeyInitialsOfTables(c: char)
    ensures BeginsKey(GetTransliterationMap(), c) ==> c in KeyInitials
  {
    ConsonantInitials();
    VowelInitials();
  }

  lemma ConsonantInitials()
    ensures forall key :: key in Consonants && key != [] ==> key[0] in KeyInitials
  {
  }

  lemma VowelInitials()
    ensures forall key :: key in Vowels && key != [] ==> key[0] in KeyInitials
  {
  }

  /** Digits, spaces, punctuation, Kannada letters, and Latin letters that begin no key, in
      either case, pass through unchanged. */
  lemma PassThrough(text: string)
    requires forall k :: 0 <= k < |text| ==> Lower(text[k]) !in KeyInitials
    ensures Translit(text) == text
  {
    forall k | 0 <= k < |text| ensures !BeginsKey(GetTransliterationMap(), Lower(text[k])) {
      KeyInitialsOfTables(Lower(text[k]));
    }
    UnmatchedTextUnchanged(text, 0, GetTransliterationMap());
  }

  // ---------------------------------------------------------------------------------------
  // Case: matching lower-cases the chunk, copied characters keep their case.

  predicate IsCapital(c: char) {
    'A' <= c <= 'Z'
  }

  /** No value of the tables holds an ASCII capital. */
  predicate LowerCaseValues(t: Tables) {
    && (forall key, c :: key in t.vowels && c in t.vowels[key] ==> !IsCapital(c))
    && (forall key, c :: key in t.consonants && c in t.consonants[key] ==> !IsCapital(c))
    && (forall key, c :: key in t.matras && c in t.matras[key] ==> !IsCapital(c))
  }

  lemma TablesAreLowerCase()
    ensures LowerCaseValues(GetTransliterationMap())
  {
    VowelsAreLowerCase();
    ConsonantsAreLowerCase();
    MatrasAreLowerCase();
  }

  lemma VowelsAreLowerCase()
    ensures forall key, c :: key in Vowels && c in Vowels[key] ==> !IsCapital(c)
  {
  }

  lemma ConsonantsAreLowerCase()
    ensures forall key, c :: key in Consonants && c in Consonants[key] ==> !IsCapital(c)
  {
  }

  lemma MatrasAreLowerCase()
    ensures forall key, c :: key in Matras && c in Matras[key] ==> !IsCapital(c)
  {
  }

  lemma LowerCaseValue(v: string)
    requires forall c :: c in v ==> !IsCapital(c)
    ensures LowerStr(v) == v
  {
    assert forall k :: 0 <= k < |v| ==> v[k] in v;
    LowerStrUnchanged(v);
  }

  lemma ChunkOfLower(text: string, i: nat, w: nat)
    requires i <= |text|
    ensures Chunk(LowerStr(text), i, w) == Chunk(text, i, w)
  {
    var m := Min(i + w, |text|);
    LowerStrSlice(text, i, m);
    LowerStrIdempotent(text[i..m]);
  }

  /** On text without capitals a chunk is just the slice. */
  lemma ChunksOfLowerCaseText(text: string)
    requires forall k :: 0 <= k < |text| ==> !IsCapital(text[k])
    ensures forall i: nat, w: nat :: i <= |text| ==> Chunk(text, i, w) == text[i..Min(i + w, |text|)]
  {
    forall i: nat, w: nat | i <= |text| ensures Chunk(text, i, w) == text[i..Min(i + w, |text|)] {
      LowerStrUnchanged(text[i..Min(i + w, |text|)]);
    }
  }

  lemma {:induction false} FirstKeyOfLower(text: string, i: nat, widths: seq<nat>, table: map<string, string>)
    requires i <= |text|
    ensures FirstKey(LowerStr(text), i, widths, table) == FirstKey(text, i, widths, table)
    decreases |widths|
  {
    if widths != [] {
      ChunkOfLower(text, i, widths[0]);
      FirstKeyOfLower(text, i, widths[1..], table);
    }
  }

  lemma {:induction false} FittingKeyOfLower(text: string, i: nat, widths: seq<nat>, table: map<string, string>)
    ensures FittingKey(LowerStr(text), i, widths, table) == FittingKey(text, i, widths, table)
    decreases |widths|
  {
    if widths != [] {
      if i + widths[0] <= |text| {
        ChunkOfLower(text, i, widths[0]);
      }
      FittingKeyOfLower(text, i, widths[1..], table);
    }
  }

  /** One step on the lower-cased text takes the same branch, and appends the lower-cased output. */
  lemma StepAtOfLower(text: string, i: nat, t: Tables)
    requires i < |text| && WellFormed(t) && LowerCaseValues(t)
    ensures StepAt(LowerStr(text), i, t) == Step(LowerStr(StepAt(text, i, t).out), StepAt(text, i, t).next)
  {
    var cons := FirstKey(text, i, ConsonantWidths, t.consonants);
    if cons.Some? {
      ConsonantOfLower(text, i, t, cons.value);
    } else {
      var vowel := FirstKey(text, i, VowelWidths, t.vowels);
      if vowel.Some? {
        VowelOfLower(text, i, t, vowel.value);
      } else {
        CopyOfLower(text, i, t);
      }
    }
  }

  lemma ConsonantOfLower(text: string, i: nat, t: Tables, lenC: nat)
    requires i < |text| && WellFormed(t) && LowerCaseValues(t)
    requires FirstKey(text, i, ConsonantWidths, t.consonants) == Some(lenC)
    ensures StepAt(LowerStr(text), i, t) == Step(LowerStr(StepAt(text, i, t).out), StepAt(text, i, t).next)
  {
    var sign := FittingKey(text, i + lenC, SignWidths, t.matras);
    if sign.Some? {
      SignOfLower(text, i, t, lenC, sign.value);
    } else {
      HalantOfLower(text, i, t, lenC);
    }
  }

  lemma SignOfLower(text: string, i: nat, t: Tables, lenC: nat, lenV: nat)
    requires i < |text| && WellFormed(t) && LowerCaseValues(t)
    requires FirstKey(text, i, ConsonantWidths, t.consonants) == Some(lenC)
    requires FittingKey(text, i + lenC, SignWidths, t.matras) == Some(lenV)
    ensures StepAt(LowerStr(text), i, t) == Step(LowerStr(StepAt(text, i, t).out), StepAt(text, i, t).next)
  {
    FirstKeyOfLower(text, i, ConsonantWidths, t.consonants);
    FittingKeyOfLower(text, i + lenC, SignWidths, t.matras);
    var key := Chunk(text, i, lenC);
    StepAtSign(text, i, t, lenC, lenV);
    StepAtSign(LowerStr(text), i, t, lenC, lenV);
    ChunkOfLower(text, i, lenC);
    ChunkOfLower(text, i + lenC, lenV);
    var out := [t.consonants[key][0]] + t.matras[Chunk(text, i + lenC, lenV)];
    assert t.consonants[key][0] in t.consonants[key];
    LowerCaseValue(out);
  }

  lemma HalantOfLower(text: string, i: nat, t: Tables, lenC: nat)
    requires i < |text| && WellFormed(t) && LowerCaseValues(t)
    requires FirstKey(text, i, ConsonantWidths, t.consonants) == Some(lenC)
    requires FittingKey(text, i + lenC, SignWidths, t.matras) == None
    ensures StepAt(LowerStr(text), i, t) == Step(LowerStr(StepAt(text, i, t).out), StepAt(text, i, t).next)
  {
    FirstKeyOfLower(text, i, ConsonantWidths, t.consonants);
    FittingKeyOfLower(text, i + lenC, SignWidths, t.matras);
    StepAtHalant(text, i, t, lenC);
    StepAtHalant(LowerStr(text), i, t, lenC);
    ChunkOfLower(text, i, lenC);
    LowerCaseValue(t.consonants[Chunk(text, i, lenC)]);
  }

  lemma VowelOfLower(text: string, i: nat, t: Tables, lenV: nat)
    requires i < |text| && WellFormed(t) && LowerCaseValues(t)
    requires FirstKey(text, i, ConsonantWidths, t.consonants) == None
    requires FirstKey(text, i, VowelWidths, t.vowels) == Some(lenV)
    ensures StepAt(LowerStr(text), i, t) == Step(LowerStr(StepAt(text, i, t).out), StepAt(text, i, t).next)
  {
    FirstKeyOfLower(text, i, ConsonantWidths, t.consonants);
    FirstKeyOfLower(text, i, VowelWidths, t.vowels);
    StepAtVowel(text, i, t, lenV);
    StepAtVowel(LowerStr(text), i, t, lenV);
    ChunkOfLower(text, i, lenV);
    LowerCaseValue(t.vowels[Chunk(text, i, lenV)]);
  }

  lemma CopyOfLower(text: string, i: nat, t: Tables)
    requires i < |text| && WellFormed(t)
    requires FirstKey(text, i, ConsonantWidths, t.consonants) == None
    requires FirstKey(text, i, VowelWidths, t.vowels) == None
    ensures StepAt(LowerStr(text), i, t) == Step(LowerStr(StepAt(text, i, t).out), StepAt(text, i, t).next)
  {
    FirstKeyOfLower(text, i, ConsonantWidths, t.consonants);
    FirstKeyOfLower(text, i, VowelWidths, t.vowels);
    StepAtCopy(text, i, t);
    StepAtCopy(LowerStr(text), i, t);
  }

  lemma {:induction false} TranslitFromOfLower(text: string, i: nat, t: Tables)
    requires WellFormed(t) && LowerCaseValues(t)
    ensures TranslitFrom(LowerStr(text), i, t) == LowerStr(TranslitFrom(text, i, t))
    decreases |text| - i
  {
    if i < |text| {
      var s := StepAt(text, i, t);
      StepAtOfLower(text, i, t);
      TranslitFromOfLower(text, s.next, t);
      UnfoldTranslitFrom(text, i, t);
      UnfoldTranslitFrom(LowerStr(text), i, t);
      LowerStrAppend(s.out, TranslitFrom(text, s.next, t));
    }
  }

  /** Transliterating the lower-cased text gives the lower-cased transliteration: the tables
      see only lower-case chunks, so case survives only in the copied characters. */
  lemma CaseInsensitive(text: string)
    ensures Translit(LowerStr(text)) == LowerStr(Translit(text))
  {
    TablesAreLowerCase();
    TranslitFromOfLower(text, 0, GetTransliterationMap());
  }

  /** The empty text gives the empty result: the loop body never runs (transliterate.py:47-53, 117). */
  lemma EmptyText()
    ensures Translit("") == ""
  {
  }
}
