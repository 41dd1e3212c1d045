# Kannada transliteration and text utilities, modelled in Dafny

This project models the two pieces of string logic in the Kannada language toolkit.

**The Latin-to-Kannada transliteration encoder** (`transliterate.py`, and its copy in `app.py`).
- Three lookup tables map Latin keys to Kannada text: independent vowels, consonants in halant form, and dependent vowel signs.
- A greedy scanner walks the text with an index `i`. It first tries a consonant key of 3, 2, then 1 characters.
- After a consonant it looks ahead for a vowel sign of 2, then 1 characters. The sign is only tried where that many characters remain.
- It then emits one of three things:
  - the bare letter, for the inherent `a`;
  - the letter plus a dependent vowel sign;
  - the letter plus virama, when no sign follows.
- Failing a consonant, it tries an independent vowel of 2, then 1 characters. Failing that, it copies the character.
- Chunks are lower-cased before the lookup. Copied characters keep their case.
- Python slices are cut short at the end of the text, so `i` can run past `n`.

**The rule-based text utilities** (`nlp_utils.py`).
- `normalize_kannada`: NFC composition, removal of U+200D and U+200C, `strip()`, and `\s+` collapsed to one space.
- `preprocess_text`: splits on `' '` and optionally drops stop words.
- `classify_text`: counts keyword mentions per category and picks the first category with the highest count.
- `analyze_sentiment`: a lexicon score and its label.
- `simplify_kannada`: ordered substring replacement.
- `basic_translate_en_kn`: word-by-word dictionary translation.

Modules:
- `Wrappers` (wrappers.dfy): `Option`, for Python's `None`-or-value.
- `Strings` (strings.dfy): the Python `str` operations the code uses, over code points. These are `isspace`, `lower`, `strip`, `re.sub(r'\s+', ' ', ·)`, `replace`, `in`, `split(' ')`, `split()` and `' '.join`.
- `Transliteration` (transliterate.dfy): the tables and the functional model of one loop iteration (`StepAt`) and of the whole scan (`TranslitFrom`, `Translit`). It also holds the imperative scan: `LongestKey`, `FittingSign`, `ScanStep`, `Scan` and `Transliterate`, each proved against those functions, and the lemmas about the encoder.
- `TransliterationExamples` (transliterate_examples.dfy): worked inputs, traced one loop iteration at a time.
- `App` (app.dfy): app.py's own copy of the tables, proved equal to transliterate.py's. It also models app.py's `transliterate` with its empty-input guard.
- `NlpUtils` (nlp_utils.dfy): the six utilities.
  - Each loop of the source is a method (`ClassifyText`/`ScoreToken`, `AnalyzeSentiment`, `SimplifyKannada`, `TranslateEach`).
  - Each method is proved equal to a specification function, and the lemmas are about those functions.

## Model

| member | source | states |
|---|---|---|
| Transliteration.GetTransliterationMap | transliterate.py:4-45 | Every consonant value is a base letter followed by virama U+0CCD, so `cons_halant[0]` is the base letter |
| Transliteration.DuplicateKeysKeepLastValue | transliterate.py:28-32 | The repeated keys th, d, dh, n, l hold their later values ತ್, ದ್, ಧ್, ನ್, ಳ್ |
| Transliteration.Chunk | transliterate.py:58 | Definition, no contract of its own: `text[i:i+width].lower()`, the slice cut short at the end of the text and then lower-cased |
| Transliteration.FirstKey | transliterate.py:57-62 | A width found is one of the widths tried, and its lower-cased chunk is a key; no width found means no width's chunk is a key |
| Transliteration.FittingKey | transliterate.py:81-87 | As FirstKey, but only widths with `i + width <= n` are tried, so a chunk found is never cut short |
| Transliteration.LongestKey | transliterate.py:55-62 | The `for`/`break` loop matches exactly when FirstKey finds a width; `len_c` is that width and `match_c` the lower-cased chunk |
| Transliteration.FittingSign | transliterate.py:79-87 | The lookahead loop matches exactly when FittingKey finds a width; the width fits in the text and `match_v` is its chunk |
| Transliteration.FirstKeyIsLongest | transliterate.py:57-62 | With widths tried in decreasing order, the key found is the longest: no longer width's chunk is a key |
| Transliteration.ConsonantOrder | transliterate.py:57-62 | A consonant is matched on 3 characters if they form a key, else on 2, else on 1 |
| Transliteration.SignOrder | transliterate.py:81-87 | A vowel sign is matched on 2 characters if they fit and form a key, else on 1 if it fits, else none |
| Transliteration.VowelOrder | transliterate.py:102-107 | An independent vowel is matched on 2 characters if they form a key, else on 1 |
| Transliteration.StepAt | transliterate.py:53-116 | Every iteration advances `i` by at least 1 (and at most 5), so the loop ends; `i` may pass `n` |
| Transliteration.StepAtSign | transliterate.py:89-93 | Consonant then sign: appends the base letter plus the sign, and `i` moves past both keys |
| Transliteration.StepAtHalant | transliterate.py:94-96 | Consonant with no sign: appends the halant form, and `i` moves past the consonant key |
| Transliteration.StepAtVowel | transliterate.py:109-111 | No consonant, a vowel key: appends the independent vowel, and `i` moves past the key |
| Transliteration.StepAtCopy | transliterate.py:112-115 | Neither: appends `text[i]` unchanged, and `i` advances by 1 |
| Transliteration.TranslitFrom | transliterate.py:53-117 | Definition, no contract of its own: the output of the loop from index `i` on, one StepAt after another; Scan is proved to compute it, and the lemmas below state its properties |
| Transliteration.Translit | transliterate.py:47-117 | Definition, no contract of its own: TranslitFrom from index 0 over transliterate.py's tables; Transliterate is proved to return it |
| Transliteration.ScanStep | transliterate.py:54-115 | One loop body appends exactly the step's output and sets `i` to the step's next position |
| Transliteration.Scan | transliterate.py:49-117 | The loop keeps "output so far + output of the rest = output of the whole text"; the result is the output from position 0 |
| Transliteration.Transliterate | transliterate.py:47-117 | `transliterate(text)` returns `Translit(text)` |
| Transliteration.ShadowedLettersNotInTables | transliterate.py:25-33 | No table value holds ಠ, ಡ, ಢ, ಣ or ಲ, the letters whose keys are overridden |
| Transliteration.OutputCharsFromTextOrTables | transliterate.py:53-117 | Every output character is a character of the text or of a table value |
| Transliteration.ShadowedLettersOnlyCopied | transliterate.py:28-32 | ಠ, ಡ, ಢ, ಣ and ಲ appear in the output only when the text itself contains them |
| Transliteration.UnmatchedCharCopied | transliterate.py:112-115 | A character whose lower case begins no consonant or vowel key is copied and `i` advances by 1 |
| Transliteration.UnmatchedTextUnchanged | transliterate.py:112-115 | Text none of whose characters begins a key comes back unchanged |
| Transliteration.KeyInitialsOfTables | transliterate.py:9-33 | Every consonant and vowel key begins with one of k g n c j t d p b m y r l v w s h a i u e o |
| Transliteration.PassThrough | transliterate.py:112-115 | Digits, spaces, punctuation, Kannada letters, and Latin letters that begin no key, in either case, pass through unchanged |
| Transliteration.TablesAreLowerCase | transliterate.py:9-43 | No table value holds an ASCII capital |
| Transliteration.FirstKeyOfLower | transliterate.py:58 | Lower-casing the text first does not change which consonant or vowel key is found |
| Transliteration.FittingKeyOfLower | transliterate.py:83 | Lower-casing the text first does not change which vowel sign is found |
| Transliteration.StepAtOfLower | transliterate.py:53-115 | On the lower-cased text an iteration takes the same branch, moves `i` equally, and appends the lower-cased output |
| Transliteration.TranslitFromOfLower | transliterate.py:53-117 | From any position, the output on the lower-cased text is the lower-cased output |
| Transliteration.CaseInsensitive | transliterate.py:58-114 | `transliterate(text.lower()) == transliterate(text).lower()`: matching ignores case, and only copied characters carry it |
| Transliteration.EmptyText | transliterate.py:47-53 | The empty text gives the empty result |
| TransliterationExamples.ExampleNamaskara | app.py:205-207 | "namaskara" becomes "ನಮಸ್ಕರ" |
| TransliterationExamples.ExampleKru | transliterate.py:81-93 | "kru" becomes "ಕೃ": the two-letter sign "ru" follows the consonant "k" |
| TransliterationExamples.ExampleChh | transliterate.py:57-62 | "chh" becomes "ಛ್": the three-letter key wins over "ch" |
| TransliterationExamples.ExampleShortSliceOvershoots | transliterate.py:57-76 | On "ch" the 3-wide slice is cut short to the key "ch", `i` jumps to 3 past `n = 2`, and the result is "ಚ್" |
| TransliterationExamples.ExampleAa | transliterate.py:100-111 | "aa" becomes "ಆ": the two-letter vowel wins over "a" |
| TransliterationExamples.ExampleAm | transliterate.py:100-111 | "am" becomes "ಅಂ" |
| TransliterationExamples.ExampleCapitals | transliterate.py:58-92 | "KA" becomes "ಕ": the chunks are lower-cased before the lookup |
| TransliterationExamples.ExampleCopyKeepsCase | transliterate.py:112-115 | "Xa" becomes "Xಅ": the copied character keeps its case |
| App.VowelsAgree | app.py:22-26 | app.py's vowel table equals transliterate.py's |
| App.ConsonantsAgree | app.py:27-35 | app.py's consonant table equals transliterate.py's, repeated keys and their later values included |
| App.MatrasAgree | app.py:36-39 | app.py's vowel-sign table equals transliterate.py's |
| App.GetTransliterationMap | app.py:20-40 | app.py's `get_transliteration_map()` returns the same three tables as transliterate.py's |
| App.Transliterate | app.py:42-91 | `None` and "" give "" before any table is consulted; any other text gives what transliterate.py gives |
| Strings.IsSpace | nlp_utils.py:26 | Definition, no contract of its own: the code points for which Python's `str.isspace()` holds, which `strip()`, `split()` and `\s` all test |
| Strings.LowerStr | transliterate.py:58 | `s.lower()` keeps the length and lower-cases each code point (ASCII letters only) |
| Strings.LowerStrIdempotent | transliterate.py:58 | Lower-casing twice is lower-casing once |
| Strings.Strip | nlp_utils.py:26 | `strip()` leaves no whitespace at either end and adds no character |
| Strings.StripSlice | nlp_utils.py:26 | `s.strip()` is a slice `s[a..b]` of `s` with only whitespace before `a` and after `b` |
| Strings.StripUnchanged | nlp_utils.py:26 | A string with no whitespace at either end is left as it is |
| Strings.CollapseSpaces | nlp_utils.py:29 | The result is empty exactly when the input is, and starts with whitespace exactly when the input does |
| Strings.CollapseSpacesChars | nlp_utils.py:29 | Every character of the result is `' '` or a non-whitespace character of the input |
| Strings.CollapseSpacesNoRuns | nlp_utils.py:29 | The result never has two whitespace characters in a row |
| Strings.CollapseSpacesLast | nlp_utils.py:29 | The result ends in whitespace exactly when the input does |
| Strings.CollapseSpacesUnchanged | nlp_utils.py:29 | A string whose only whitespace is single `' '` characters is left as it is |
| Strings.CollapseSpacesKeepsText | nlp_utils.py:29 | The non-whitespace characters of the result are those of the input, in order |
| Strings.CollapseTrimmed | nlp_utils.py:26-29 | Collapsing the whitespace of a stripped string gives a stripped string whose only whitespace is single `' '` |
| Strings.Replace | nlp_utils.py:22 | Without an occurrence nothing changes; with one, the replacement occurs in the result; every character comes from the input or the replacement; a one-character pattern not in the replacement is gone |
| Strings.ReplaceAtFirst | nlp_utils.py:22 | At the first occurrence of the pattern, the text before it is kept unchanged, the replacement takes its place, and replacing continues after it; with the no-occurrence case this fixes the result |
| Strings.ReplaceCharByNothing | nlp_utils.py:22 | `s.replace(c, '')` deletes every `c` and keeps every other character in order |
| Strings.Contains | nlp_utils.py:71 | Definition by recursion of Python's `sub in s`; its meaning is ContainsMeaning |
| Strings.ContainsMeaning | nlp_utils.py:71 | `sub in s` holds exactly when `sub` occurs in `s` at some position |
| Strings.SplitOn | nlp_utils.py:41 | `split(' ')` gives at least one piece, and no piece contains the separator |
| Strings.Join | nlp_utils.py:169 | Definition, no contract of its own: `sep.join(parts)`, the parts with one `sep` between neighbours; JoinSplitOn and SplitWsJoin relate it to the two splits |
| Strings.JoinSplitOn | nlp_utils.py:41 | Joining the pieces of `s.split(sep)` with `sep` gives `s` back |
| Strings.SplitOnSingleSpaced | nlp_utils.py:41 | A non-empty, trimmed, single-spaced string splits on `' '` into non-empty words without whitespace |
| Strings.SplitWs | nlp_utils.py:69 | `split()` gives non-empty pieces without whitespace |
| Strings.SplitWsChars | nlp_utils.py:164 | Every character of a word of `s.split()` is a character of `s` |
| Strings.SplitWsJoin | nlp_utils.py:169 | Words joined by single spaces split back into the same words |
| Strings.SplitWsStrip | nlp_utils.py:26 | Stripping a string does not change its words |
| Strings.SplitWsCollapse | nlp_utils.py:29 | Collapsing the whitespace of a string does not change its words |
| Strings.SplitWsKeepsText | nlp_utils.py:69 | The words of `s.split()` run together are exactly the non-whitespace characters of `s`, in order |
| Strings.JoinSplitWsNormal | nlp_utils.py:26-29 | A stripped string whose only whitespace is single `' '` is its words joined by `' '` |
| Strings.SplitWsJoinCollapse | nlp_utils.py:26-29 | `' '.join(s.split())` equals `re.sub(r'\s+', ' ', s.strip())` |
| NlpUtils.NormalizeKannada | nlp_utils.py:9-31 | `None` or "" gives ""; the result has no U+200D or U+200C, no whitespace at either end, and only single `' '` as whitespace |
| NlpUtils.WithoutJoiners | nlp_utils.py:22 | The result is the text with every U+200D and then every U+200C deleted and all other characters kept in order; it holds neither, and text without them is unchanged |
| NlpUtils.CollapseNormalized | nlp_utils.py:26-29 | Collapsing the whitespace of stripped text without joiners gives text without joiners, stripped, whose only whitespace is single `' '` |
| NlpUtils.NormalizeWords | nlp_utils.py:9-31 | Non-empty text normalises to the words of its composed, joiner-free form joined by `' '`: no word is lost, split or merged |
| NlpUtils.NormalizeFixesNormalized | nlp_utils.py:16-31 | Normalised text that NFC leaves alone is returned as it is |
| NlpUtils.NormalizeIdempotent | nlp_utils.py:9-31 | Normalising twice is normalising once, when NFC leaves the normalised text alone |
| NlpUtils.EmptyNotStopword | nlp_utils.py:45-48 | The empty token is not a stop word, so it survives filtering |
| NlpUtils.RemoveStopwords | nlp_utils.py:49 | The kept tokens are an order-preserving sub-list of the tokens with no stop word; every other token is kept as often as it occurs (multiset equality) |
| NlpUtils.SubsequenceMembers | nlp_utils.py:49 | Every element of a sub-list is an element of the list |
| NlpUtils.PreprocessText | nlp_utils.py:33-51 | Input that normalises to "" (None, "", or only whitespace) gives `['']`; without filtering, the tokens joined with `' '` equal the normalised text; with non-empty normalised text every token is a word; with filtering, the result is the plain tokens in order with exactly the stop words removed, every other token as often as before |
| NlpUtils.Tokenize | nlp_utils.py:41-49 | The same facts for any normalised text and any stop-word set; an empty normalised text gives `['']` unless `""` is itself a stop word |
| NlpUtils.MentionsAny | nlp_utils.py:71 | `any(w in token for w in words)` holds exactly when some word is a substring of the token |
| NlpUtils.CategoryScore | nlp_utils.py:69-72 | A category's score is at most the number of tokens |
| NlpUtils.Scores | nlp_utils.py:67-72 | One score per category, in declaration order, each at most the number of tokens |
| NlpUtils.FirstMaxIndex | nlp_utils.py:75 | `max(scores, key=scores.get)` picks a maximal score with no earlier score as large, and that index is the only one with this property |
| NlpUtils.BestCategory | nlp_utils.py:75-78 | Definition, no contract of its own: the category of the first maximal score, or "General / Unclassified" when that score is 0; BestCategoryMeaning states what it returns |
| NlpUtils.BestCategoryMeaning | nlp_utils.py:75-78 | The unclassified label is returned exactly when every score is 0; otherwise the first category with the highest, positive score |
| NlpUtils.CategoryNames | nlp_utils.py:60-77 | No category is named "General / Unclassified" |
| NlpUtils.Classify | nlp_utils.py:55-78 | Definition, no contract of its own: the best category of the scores of `text.split()`; ClassifyMeaning and UnclassifiedMeansNoMention state what it returns, and ClassifyText is proved to compute it |
| NlpUtils.ClassifyMeaning | nlp_utils.py:55-78 | `classify_text` returns "General / Unclassified" exactly when every category scores 0; otherwise the first category in declaration order with the highest score |
| NlpUtils.CategoryScoreZero | nlp_utils.py:69-72 | A category scores 0 exactly when no token mentions one of its keywords |
| NlpUtils.UnclassifiedMeansNoMention | nlp_utils.py:55-78 | `classify_text` returns "General / Unclassified" exactly when no token mentions a keyword of any category |
| NlpUtils.CategoryScoreSnoc | nlp_utils.py:69-72 | One more token adds 1 to a category's score exactly when it mentions one of its keywords |
| NlpUtils.ScoreToken | nlp_utils.py:70-72 | The inner loop turns the scores of the first `t` tokens into the scores of the first `t + 1` |
| NlpUtils.ClassifyText | nlp_utils.py:55-78 | The nested loops and `max` compute the classification ClassifyMeaning describes |
| NlpUtils.WordPolarity | nlp_utils.py:98-101 | One word adds between -1 and +1 to the score |
| NlpUtils.Polarity | nlp_utils.py:95-101 | The score's absolute value is at most the number of words |
| NlpUtils.PolarityAppend | nlp_utils.py:95-101 | The score of two word lists in a row is the sum of their scores |
| NlpUtils.SentimentLabel | nlp_utils.py:104-106 | The label is Positive, Negative or Neutral exactly when the score is > 0, < 0 or = 0 |
| NlpUtils.PolarityExceedsOne | nlp_utils.py:95-107 | As written, the text "ಖುಷಿ ಉತ್ತಮ" of two positive words scores 2, outside the -1..1 the docstring at line 84 promises |
| NlpUtils.NormalizedPolarity | nlp_utils.py:84 | The score divided by the word count lies in -1..1 and has the sign of the score |
| NlpUtils.AnalyzeSentiment | nlp_utils.py:82-108 | The loop's score is the polarity of `text.split()`, bounded by the word count; the label matches its sign, and so the sign of the normalised score |
| NlpUtils.ReplaceAll | nlp_utils.py:126-128 | Text containing none of the patterns is unchanged; every character of the result comes from the text or a replacement |
| NlpUtils.ReplaceAllAppend | nlp_utils.py:126-128 | Replacements are applied in turn: two lists in a row act as the first, then the second |
| NlpUtils.ReplaceAllLast | nlp_utils.py:126-128 | The last replacement acts on the result of the others, and its replacement text occurs in the result when its pattern occurred before it |
| NlpUtils.ExampleSimplifyMovie | nlp_utils.py:116-128 | "ಈ ಚಲನಚಿತ್ರ" simplifies to "ಈ ಸಿನಿಮಾ": the formal word for film is replaced and no other replacement applies |
| NlpUtils.SimplifyKannada | nlp_utils.py:112-130 | The loop applies the seven replacements one after another in declaration order |
| NlpUtils.Words | nlp_utils.py:164 | The words are those of the lower-cased text with every full stop deleted and every other character kept; they are non-empty and free of whitespace, full stops and ASCII capitals |
| NlpUtils.LoweredWithoutStops | nlp_utils.py:164 | `text.lower().replace('.', '')` has no full stop and no ASCII capital |
| NlpUtils.DictionaryValuesAreWords | nlp_utils.py:151-162 | Every dictionary value is a single word |
| NlpUtils.TranslateWord | nlp_utils.py:167 | `dictionary.get(w, w)` of a single word is a single word |
| NlpUtils.TranslateEach | nlp_utils.py:165-167 | The loop builds one translation per word, in order |
| NlpUtils.JoinedTranslation | nlp_utils.py:169 | The translations joined by spaces split back into the translations |
| NlpUtils.BasicTranslateEnKn | nlp_utils.py:147-169 | The output has as many words as the lower-cased, `.`-stripped input; each is the word's translation; a word not in the dictionary passes through lower-cased; the output is its words joined by single spaces |

## Left out

- Unicode NFC composition (`unicodedata.normalize`, nlp_utils.py:19) is a foreign library call. It is the parameter `nfc` of `NormalizeKannada` and `PreprocessText`, and every property is proved for any such function.
- Strings.LowerStr: `str.lower()` is modelled on ASCII letters only; Python also lower-cases other letters. Only one of them would then change the transliteration: KELVIN SIGN U+212A lowers to "k" and would match the key `k`, where the model copies it. U+0130 lowers to "i" plus U+0307, but that two-character chunk matches no key, so it is copied either way. Transliteration.CaseInsensitive holds for this ASCII lower-casing; with Python's full lower-casing it fails for "İ", which the scan copies as "İ" while its lower-cased form is "i̇" transliterated to "ಇ̇". The same lower-casing feeds NlpUtils.BasicTranslateEnKn (nlp_utils.py:164): Python lower-cases the KELVIN SIGN followed by "annada" to the dictionary key "kannada" and translates it to ಕನ್ನಡ, and turns "É" into "é", where the model passes both through unchanged.
- NlpUtils.NormalizeIdempotent: it requires `nfc` to leave the normalised text alone. This is needed, since removing a joiner can bring together characters that NFC composes only on a second pass.
- Python's `None` input is `Option<string>` where the source tests `if not text` (nlp_utils.py:16, app.py:43). transliterate.py's `transliterate` and the other utilities take a string, as the source requires.
- `if match_c:` and the other tests in the scan are Python truthiness checks. A matched key is never empty, since it is a slice of at least one character, so the model tests `Some?` instead.
- Transliteration.Scan takes its tables as a parameter. `Transliterate` and `App.Transliterate` pass the constant tables.
- Python dicts iterate in insertion order. The keyword table and the replacement table are therefore sequences in declaration order. The other dicts are only looked up, so they are maps.
- The loop body of `classify_text` is split into `ScoreToken`, and that of `transliterate` into `ScanStep`. This matches each iteration one to one.
- `generate_story_start` (nlp_utils.py:134-143): it makes a random choice among templates.
- `get_kannada_char` (app.py:93-94, kannada_matrix.py:7-12): it is random.
- The rest of app.py (lines 1-19 and 96-517): the Streamlit page, its quiz, charts and widgets.
- The akshara segmenter, metre, phonetic hash, stemmer, script similarity and Markov generator that test_research.py calls are not defined in nlp_utils.py. They are not part of this model. Neither are the dataset functions that test_research.py calls; they do not exist in analyze_scripts.py.
- analyze_scripts.py, read_dataset.py, script_quiz.py and kannada_matrix.py: file loading, plotting, interactive input, terminal output and randomness.
- The `__main__` block of transliterate.py (lines 119-126): command-line I/O.

## Findings

| source | as written | input that shows it | evidently intended | confidence | as-written member | corrected member |
|---|---|---|---|---|---|---|
| nlp_utils.py:84-108 | The docstring promises a polarity from -1 to 1, but the function returns the raw count of positive minus negative words | `text = "ಖುಷಿ ಉತ್ತಮ"`: both words are positive, and the score is 2 | The count divided by the number of words, which lies in -1..1 | medium, not executed | NlpUtils.PolarityExceedsOne | NlpUtils.NormalizedPolarity (AnalyzeSentiment's label is proved to agree with its sign) |
