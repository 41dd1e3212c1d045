/** The copy of the encoder in app.py, which the web page calls. Its tables are written out
    again; the scan is the same apart from an early return on empty text. */
module App {
  import opened Wrappers
  import Transliteration

  /** app.py:22-26. */
  const AppVowels: map<string, string> := map[
    "aa" := "ಆ", "a" := "ಅ", "ii" := "ಈ", "i" := "ಇ", "uu" := "ಊ", "u" := "ಉ",
    "e" := "ಎ", "ee" := "ಏ", "ai" := "ಐ", "o" := "ಒ", "oo" := "ಓ", "au" := "ಔ",
    "am" := "ಅಂ", "ah" := "ಅಃ"
  ]

  /** app.py:27-35, with the same repeated keys as transliterate.py. */
  const AppConsonants: map<string, string> := map[
    "k" := "ಕ್", "kh" := "ಖ್", "g" := "ಗ್", "gh" := "ಘ್", "ng" := "ಙ್",
    "ch" := "ಚ್", "chh" := "ಛ್", "j" := "ಜ್", "jh" := "ಝ್", "ny" := "ಞ್",
    "t" := "ಟ್", "th" := "ಠ್", "d" := "ಡ್", "dh" := "ಢ್", "n" := "ಣ್",
    "th" := "ತ್", "d" := "ದ್", "dh" := "ಧ್", "n" := "ನ್",
    "p" := "ಪ್", "ph" := "ಫ್", "b" := "ಬ್", "bh" := "ಭ್", "m" := "ಮ್",
    "y" := "ಯ್", "r" := "ರ್", "l" := "ಲ್", "v" := "ವ್", "w" := "ವ್",
    "sh" := "ಶ್", "shh" := "ಷ್", "s" := "ಸ್", "h" := "ಹ್", "l" := "ಳ್"
  ]

  /** app.py:36-39. */
  const AppMatras: map<string, string> := map[
    "a" := "", "aa" := "ಾ", "i" := "ಿ", "ii" := "ೀ", "u" := "ು", "uu" := "ೂ", "ru" := "ೃ",
    "e" := "ೆ", "ee" := "ೇ", "ai" := "ೈ", "o" := "ೊ", "oo" := "ೋ", "au" := "ೌ"
  ]

  /** `get_transliteration_map()` of app.py:20-40: the same three tables as transliterate.py. */
  function GetTransliterationMap(): (t: Transliteration.Tables)
    ensures t == Transliteration.GetTransliterationMap()
  {
    VowelsAgree();
    ConsonantsAgree();
    MatrasAgree();
    Transliteration.Tables(AppVowels, AppConsonants, AppMatras)
  }

  lemma VowelsAgree()
    ensures AppVowels == Transliteration.Vowels
  {
  }

  lemma ConsonantsAgree()
    ensures AppConsonants == Transliteration.Consonants
  {
  }

  lemma MatrasAgree()
    ensures AppMatras == Transliteration.Matras
  {
  }

  /** `transliterate(text)` of app.py:42-91: `None` and "" give "", and any other text gives
      what transliterate.py gives. */
  method Transliterate(text: Option<string>) returns (result: string)
    ensures text.None? || text.value == "" ==> result == ""
    ensures text.Some? ==> result == Transliteration.Translit(text.value)
  {
    if text.None? || text.value == "" {
      Transliteration.EmptyText();
      return "";
    }
    var t := GetTransliterationMap();
    result := Transliteration.Scan(text.value, t);
  }
}
