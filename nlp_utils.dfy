/** The rule-based text utilities of nlp_utils.py: normalisation, tokenisation, keyword topic
    classification, lexicon sentiment, word simplification and dictionary translation. */
module NlpUtils {
  import opened Wrappers
  import opened Strings

  // ---------------------------------------------------------------------------------------
  // normalize_kannada and preprocess_text (nlp_utils.py:9-51)

  /** U+200D ZERO WIDTH JOINER and U+200C ZERO WIDTH NON-JOINER. */
  const Zwj: char := '\U{200D}'
  const Zwnj: char := '\U{200C}'

  /** What `normalize_kannada` promises of its result. */
  predicate Normalized(s: string) {
    Zwj !in s && Zwnj !in s && Trimmed(s) && SingleSpaced(s)
  }

  /** `normalize_kannada(text)` (nlp_utils.py:9-31). `None` and "" give ""; otherwise the text is
      composed by `nfc` (`unicodedata.normalize('NFC', ·)`), loses its joiners, is stripped,
      and has each run of whitespace replaced by one space. */
  function NormalizeKannada(text: Option<string>, nfc: string -> string): (r: string)
    ensures text.None? || text.value == "" ==> r == ""
    ensures Normalized(r)
  {
    if text.None? || text.value == "" then ""
    else
      var noJoiners := WithoutJoiners(nfc(text.value));
      var stripped := Strip(noJoiners);
      CollapseNormalized(stripped);
      CollapseSpaces(stripped)
  }

  /** `text.replace('\u200d', '').replace('\u200c', '')` (nlp_utils.py:22). */
  function WithoutJoiners(s: string): (r: string)
    ensures r == Drop(Drop(s, Zwj), Zwnj)
    ensures Zwj !in r && Zwnj !in r
    ensures Zwj !in s && Zwnj !in s ==> r == s
  {
    ReplaceCharByNothing(s, Zwj);
    ReplaceCharByNothing(Replace(s, [Zwj], ""), Zwnj);
    assert Zwj !in s && Zwnj !in s ==> !Contains(s, [Zwj]) && !Contains(s, [Zwnj]) by {
      if Zwj !in s && Zwnj !in s {
        NotContainsChar(s, Zwj);
        NotContainsChar(s, Zwnj);
      }
    }
    Replace(Replace(s, [Zwj], ""), [Zwnj], "")
  }

  /** Collapsing the whitespace of stripped text without joiners gives normalised text. */
  lemma CollapseNormalized(s: string)
    requires Trimmed(s) && Zwj !in s && Zwnj !in s
    ensures Normalized(CollapseSpaces(s))
  {
    var r := CollapseSpaces(s);
    CollapseTrimmed(s);
    CollapseSpacesChars(s);
    forall k | 0 <= k < |r| ensures r[k] != Zwj && r[k] != Zwnj {
    }
  }

  /** Non-empty text normalises to the words of its composed, joiner-free form joined by single
      spaces: no word is lost, split or merged, only the whitespace around them changes. */
  lemma NormalizeWords(text: string, nfc: string -> string)
    ensures text != "" ==> NormalizeKannada(Some(text), nfc) == Join(SplitWs(WithoutJoiners(nfc(text))), ' ')
  {
    SplitWsJoinCollapse(WithoutJoiners(nfc(text)));
  }

  /** Normalised text that `nfc` leaves alone is a fixed point of `normalize_kannada`. */
  lemma NormalizeFixesNormalized(s: string, nfc: string -> string)
    requires Normalized(s) && nfc(s) == s
    ensures NormalizeKannada(Some(s), nfc) == s
  {
    if s != "" {
      StripUnchanged(s);
      CollapseSpacesUnchanged(s);
    }
  }

  /** Normalising twice is normalising once, whenever `nfc` leaves the normalised text alone. */
  lemma NormalizeIdempotent(text: Option<string>, nfc: string -> string)
    requires nfc(NormalizeKannada(text, nfc)) == NormalizeKannada(text, nfc)
    ensures NormalizeKannada(Some(NormalizeKannada(text, nfc)), nfc) == NormalizeKannada(text, nfc)
  {
    NormalizeFixesNormalized(NormalizeKannada(text, nfc), nfc);
  }

  /** The stop words of nlp_utils.py:45-48. */
  const Stopwords: set<string> := {
    "ಮತ್ತು", "ಒಂದು", "ಈ", "ಆ", "ನನ್ನ", "ನಿಮ್ಮ", "ಅವರು", "ಇದು", "ಆದರೆ",
    "ಬಗ್ಗೆ", "ನಾವು", "ನೀವು", "ಎಂದು", "ಇದೆ", "ಆಗಿ", "ಅದು", "ಅಲ್ಲಿ", "ಇಲ್ಲಿ"
  }

  lemma EmptyNotStopword()
    ensures "" !in Stopwords
  {
    assert forall w :: w in Stopwords ==> |w| > 0;
  }

  /** `a` is `b` with some elements left out, the rest in their order. */
  predicate IsSubsequence(a: seq<string>, b: seq<string>)
    decreases |b|
  {
    a == [] || (b != [] && (if a[0] == b[0] then IsSubsequence(a[1..], b[1..]) else IsSubsequence(a, b[1..])))
  }

  /** `[t for t in tokens if t not in stopwords]` (nlp_utils.py:49), for the set `stop`: every
      occurrence of a token outside `stop` is kept, in order, and nothing else. */
  function RemoveStopwords(tokens: seq<string>, stop: set<string>): (kept: seq<string>)
    ensures IsSubsequence(kept, tokens)
    ensures forall k :: 0 <= k < |kept| ==> kept[k] !in stop
    ensures forall k :: 0 <= k < |tokens| && tokens[k] !in stop ==> tokens[k] in kept
    ensures forall x :: multiset(kept)[x] == if x in stop then 0 else multiset(tokens)[x]
    decreases |tokens|
  {
    if tokens == [] then []
    else
      var rest := RemoveStopwords(tokens[1..], stop);
      assert forall k :: 1 <= k < |tokens| ==> tokens[k] == tokens[1..][k - 1];
      CountsStep(tokens, stop, rest);
      if tokens[0] in stop then rest else [tokens[0]] + rest
  }

  /** One step of the filter keeps the count of every token outside `stop`. */
  lemma CountsStep(tokens: seq<string>, stop: set<string>, rest: seq<string>)
    requires tokens != []
    requires forall x :: multiset(rest)[x] == if x in stop then 0 else multiset(tokens[1..])[x]
    ensures forall x ::
      multiset(if tokens[0] in stop then rest else [tokens[0]] + rest)[x] == if x in stop then 0 else multiset(tokens)[x]
  {
    assert tokens == [tokens[0]] + tokens[1..];
    assert multiset(tokens) == multiset([tokens[0]]) + multiset(tokens[1..]);
    assert multiset([tokens[0]] + rest) == multiset([tokens[0]]) + multiset(rest);
  }

  /** `kept` is `tokens` without the members of `stop`: an order-preserving sub-list holding no
      member of `stop` and every occurrence of every other token. */
  ghost predicate Filtered(kept: seq<string>, tokens: seq<string>, stop: set<string>) {
    && IsSubsequence(kept, tokens)
    && (forall k :: 0 <= k < |kept| ==> kept[k] !in stop)
    && (forall x :: multiset(kept)[x] == if x in stop then 0 else multiset(tokens)[x])
  }

  /** `preprocess_text(text, remove_stopwords)` (nlp_utils.py:33-51): the normalised text split
      on single spaces, optionally without stop words. */
  function PreprocessText(text: Option<string>, removeStopwords: bool, nfc: string -> string): (tokens: seq<string>)
    ensures text.None? || text.value == "" ==> tokens == [""]
    ensures NormalizeKannada(text, nfc) == "" ==> tokens == [""]
    ensures !removeStopwords ==> Join(tokens, ' ') == NormalizeKannada(text, nfc)
    ensures NormalizeKannada(text, nfc) != "" ==> forall k :: 0 <= k < |tokens| ==> IsWord(tokens[k])
    ensures removeStopwords ==> Filtered(tokens, SplitOn(NormalizeKannada(text, nfc), ' '), Stopwords)
  {
    EmptyNotStopword();
    Tokenize(NormalizeKannada(text, nfc), removeStopwords, Stopwords)
  }

  /** Lines 41-49 of `preprocess_text`: the tokens of the normalised text `normal`, for the stop
      words `stop`. */
  function Tokenize(normal: string, removeStopwords: bool, stop: set<string>): (tokens: seq<string>)
    requires Normalized(normal)
    ensures normal == "" ==> tokens == if removeStopwords && "" in stop then [] else [""]
    ensures !removeStopwords ==> Join(tokens, ' ') == normal
    ensures normal != "" ==> forall k :: 0 <= k < |tokens| ==> IsWord(tokens[k])
    ensures removeStopwords ==> Filtered(tokens, SplitOn(normal, ' '), stop)
  {
    var split := SplitOn(normal, ' ');
    JoinSplitOn(normal, ' ');
    assert normal != "" ==> forall k :: 0 <= k < |split| ==> IsWord(split[k]) by {
      if normal != "" {
        SplitOnSingleSpaced(normal);
      }
    }
    if removeStopwords then
      var kept := RemoveStopwords(split, stop);
      assert normal == "" ==> split == [""];
      assert forall k :: 0 <= k < |kept| ==> kept[k] in split by {
        SubsequenceMembers(kept, split);
      }
      assert Filtered(kept, split, stop);
      kept
    else split
  }

  lemma {:induction false} SubsequenceMembers(a: seq<string>, b: seq<string>)
    requires IsSubsequence(a, b)
    ensures forall k :: 0 <= k < |a| ==> a[k] in b
    decreases |b|
  {
    if a != [] {
      if a[0] == b[0] {
        SubsequenceMembers(a[1..], b[1..]);
        assert forall k :: 1 <= k < |a| ==> a[k] == a[1..][k - 1];
      } else {
        SubsequenceMembers(a, b[1..]);
      }
    }
  }

  // ---------------------------------------------------------------------------------------
  // classify_text (nlp_utils.py:55-78)

  datatype Category = Category(name: string, words: seq<string>)

  /** The `keywords` dict of nlp_utils.py:60-65, in its declaration order. */
  const Keywords: seq<Category> := [
    Category("Sports", ["ಕ್ರಿಕೆಟ್", "ಆಟ", "ಬ್ಯಾಟಿಂಗ್", "ಬೌಲಿಂಗ್", "ಪಂದ್ಯ", "ಕ್ರೀಡೆ", "ಗೆಲುವು", "ಸೋಲು"]),
    Category("Politics", ["ಚುನಾವಣೆ", "ಸರ್ಕಾರ", "ರಾಜಕೀಯ", "ಮಂತ್ರಿ", "ಪಕ್ಷ", "ಮತದಾನ", "ಪ್ರಧಾನಿ"]),
    Category("Cinema", ["ಚಲನಚಿತ್ರ", "ನಟ", "ನಟಿ", "ಸಿನಿಮಾ", "ಹಾಡು", "ನಿರ್ದೇಶಕ", "ತೆರೆ"]),
    Category("Technology", ["ತಂತ್ರಜ್ಞಾನ", "ಕಂಪ್ಯೂಟರ್", "ಮೊಬೈಲ್", "ಜಾಲತಾಣ", "ಸಾಫ್ಟ್ವೇರ್", "ಅಂತರ್ಜಾಲ"])
  ]

  const Unclassified: string := "General / Unclassified"

  /** `any(w in token for w in words)`: some word occurs in the token as a substring. */
  function MentionsAny(token: string, words: seq<string>): (b: bool)
    ensures b <==> exists k :: 0 <= k < |words| && Contains(token, words[k])
    decreases |words|
  {
    if words == [] then false
    else
      assert forall k :: 1 <= k < |words| ==> words[k] == words[1..][k - 1];
      Contains(token, words[0]) || MentionsAny(token, words[1..])
  }

  /** How many of the tokens mention a word of `words`. */
  function CategoryScore(tokens: seq<string>, words: seq<string>): (n: nat)
    ensures n <= |tokens|
    decreases |tokens|
  {
    if tokens == [] then 0
    else CategoryScore(tokens[..|tokens| - 1], words) + (if MentionsAny(tokens[|tokens| - 1], words) then 1 else 0)
  }

  /** The `scores` dict after the loops of nlp_utils.py:67-72, as a sequence in category order. */
  function Scores(tokens: seq<string>, cats: seq<Category>): (scores: seq<nat>)
    ensures |scores| == |cats|
    ensures forall c :: 0 <= c < |scores| ==> scores[c] <= |tokens|
  {
    seq(|cats|, c requires 0 <= c < |cats| => CategoryScore(tokens, cats[c].words))
  }

  /** `b` holds a maximal score, and no earlier score is as large. */
  predicate FirstMaximum(scores: seq<nat>, b: int) {
    && 0 <= b < |scores|
    && (forall j :: 0 <= j < |scores| ==> scores[j] <= scores[b])
    && (forall j :: 0 <= j < b ==> scores[j] < scores[b])
  }

  /** `max(scores, key=scores.get)`: Python's `max` keeps the first of several equal maxima. */
  function FirstMaxIndex(scores: seq<nat>): (b: nat)
    requires |scores| > 0
    ensures FirstMaximum(scores, b)
    ensures forall a :: FirstMaximum(scores, a) ==> a == b
    decreases |scores|
  {
    if |scores| == 1 then 0
    else
      var b := FirstMaxIndex(scores[..|scores| - 1]);
      assert forall j :: 0 <= j < |scores| - 1 ==> scores[j] == scores[..|scores| - 1][j];
      if scores[|scores| - 1] > scores[b] then |scores| - 1 else b
  }

  /** The end of `classify_text` (nlp_utils.py:75-78): the first category with the highest
      score, or the unclassified label when that score is 0. */
  function BestCategory(scores: seq<nat>, cats: seq<Category>): string
    requires |scores| == |cats| > 0
  {
    var best := FirstMaxIndex(scores);
    if scores[best] == 0 then Unclassified else cats[best].name
  }

  /** The label is the unclassified one exactly when every score is 0; otherwise it names the
      first category with the highest score. */
  lemma BestCategoryMeaning(scores: seq<nat>, cats: seq<Category>)
    requires |scores| == |cats| > 0
    requires forall c :: 0 <= c < |cats| ==> cats[c].name != Unclassified
    ensures BestCategory(scores, cats) == Unclassified <==> forall c :: 0 <= c < |scores| ==> scores[c] == 0
    ensures BestCategory(scores, cats) != Unclassified ==>
      exists b :: FirstMaximum(scores, b) && scores[b] > 0 && BestCategory(scores, cats) == cats[b].name
  {
    var best := FirstMaxIndex(scores);
    if scores[best] != 0 {
      assert FirstMaximum(scores, best) && scores[best] > 0;
    }
  }

  /** `classify_text(text)` as a function of the text (nlp_utils.py:55-78). */
  function Classify(text: string): string {
    BestCategory(Scores(SplitWs(text), Keywords), Keywords)
  }

  /** The text is unclassified exactly when no token mentions any keyword; otherwise it gets the
      first category, in declaration order, with the highest score. */
  lemma ClassifyMeaning(text: string)
    ensures Classify(text) == Unclassified ==> forall c :: 0 <= c < |Keywords| ==> Scores(SplitWs(text), Keywords)[c] == 0
    ensures (forall c :: 0 <= c < |Keywords| ==> Scores(SplitWs(text), Keywords)[c] == 0) ==> Classify(text) == Unclassified
    ensures Classify(text) != Unclassified ==>
      exists b :: FirstMaximum(Scores(SplitWs(text), Keywords), b) && Scores(SplitWs(text), Keywords)[b] > 0 && Classify(text) == Keywords[b].name
  {
    var scores := Scores(SplitWs(text), Keywords);
    assert Classify(text) == BestCategory(scores, Keywords);
    CategoryNames();
    BestCategoryMeaning(scores, Keywords);
  }

  /** A category scores 0 exactly when none of the tokens mentions one of its words. */
  lemma {:induction false} CategoryScoreZero(tokens: seq<string>, words: seq<string>)
    ensures CategoryScore(tokens, words) == 0 <==> forall k :: 0 <= k < |tokens| ==> !MentionsAny(tokens[k], words)
    decreases |tokens|
  {
    if tokens != [] {
      var init := tokens[..|tokens| - 1];
      CategoryScoreZero(init, words);
      assert forall k :: 0 <= k < |init| ==> init[k] == tokens[k];
    }
  }

  /** `classify_text` returns "General / Unclassified" exactly when no token of the text mentions
      a keyword of any category. */
  lemma UnclassifiedMeansNoMention(text: string)
    ensures Classify(text) == Unclassified ==>
      forall c, k :: 0 <= c < |Keywords| && 0 <= k < |SplitWs(text)| ==> !MentionsAny(SplitWs(text)[k], Keywords[c].words)
    ensures (forall c, k :: 0 <= c < |Keywords| && 0 <= k < |SplitWs(text)| ==> !MentionsAny(SplitWs(text)[k], Keywords[c].words)) ==>
      Classify(text) == Unclassified
  {
    var tokens := SplitWs(text);
    var scores := Scores(tokens, Keywords);
    ClassifyMeaning(text);
    forall c | 0 <= c < |Keywords| ensures scores[c] == 0 <==> forall k :: 0 <= k < |tokens| ==> !MentionsAny(tokens[k], Keywords[c].words) {
      CategoryScoreZero(tokens, Keywords[c].words);
    }
  }

  lemma CategoryNames()
    ensures forall c :: 0 <= c < |Keywords| ==> Keywords[c].name != Unclassified
  {
  }

  lemma CategoryScoreSnoc(tokens: seq<string>, t: nat, words: seq<string>)
    requires t < |tokens|
    ensures CategoryScore(tokens[..t + 1], words) ==
      CategoryScore(tokens[..t], words) + (if MentionsAny(tokens[t], words) then 1 else 0)
  {
    assert tokens[..t + 1][..t] == tokens[..t];
  }

  /** The inner loop of nlp_utils.py:70-72: scores the token `tokens[t]` against every category. */
  method ScoreToken(tokens: seq<string>, t: nat, cats: seq<Category>, scores: seq<nat>) returns (next: seq<nat>)
    requires t < |tokens| && scores == Scores(tokens[..t], cats)
    ensures next == Scores(tokens[..t + 1], cats)
  {
    var token := tokens[t];
    next := scores;
    var c := 0;
    while c < |cats|
      invariant 0 <= c <= |cats| && |next| == |cats|
      invariant forall j :: 0 <= j < c ==> next[j] == CategoryScore(tokens[..t + 1], cats[j].words)
      invariant forall j :: c <= j < |cats| ==> next[j] == CategoryScore(tokens[..t], cats[j].words)
    {
      CategoryScoreSnoc(tokens, t, cats[c].words);
      if MentionsAny(token, cats[c].words) {
        next := next[c := next[c] + 1];
      }
      c := c + 1;
    }
  }

  /** `classify_text(text)` (nlp_utils.py:55-78): for each token and each category, the score
      goes up by one when the token mentions a keyword of the category. */
  method ClassifyText(text: string) returns (category: string)
    ensures category == Classify(text)
  {
    var tokens := SplitWs(text);
    var scores: seq<nat> := seq(|Keywords|, c => 0);
    assert scores == Scores(tokens[..0], Keywords);
    var t := 0;
    while t < |tokens|
      invariant 0 <= t <= |tokens|
      invariant scores == Scores(tokens[..t], Keywords)
    {
      scores := ScoreToken(tokens, t, Keywords, scores);
      t := t + 1;
    }
    assert tokens[..t] == tokens;
    var best := FirstMaxIndex(scores);
    if scores[best] == 0 {
      category := Unclassified;
    } else {
      category := Keywords[best].name;
    }
    assert category == BestCategory(scores, Keywords);
  }

  // ---------------------------------------------------------------------------------------
  // analyze_sentiment (nlp_utils.py:82-108)

  /** nlp_utils.py:86-89. */
  const PositiveWords: seq<string> := [
    "ಚೆನ್ನಾಗಿದೆ", "ಸುಂದರ", "ಉತ್ತಮ", "ಶ್ರೇಷ್ಠ", "ಖುಷಿ", "ಪ್ರೀತಿ", "ಗೆಲುವು", "ಅದ್ಭುತ",
    "ಒಳ್ಳೆಯ", "ಸಂತೋಷ", "ಆನಂದ", "ಸೂಪರ್"
  ]

  /** nlp_utils.py:90-93. */
  const NegativeWords: seq<string> := [
    "ಕೆಟ್ಟ", "ಕಷ್ಟ", "ದುಃಖ", "ನೋವು", "ಸೋಲು", "ಅಸಹ್ಯ", "ಕೋಪ", "ಬೇಜಾರು", "ಭಯ",
    "ದೋಷ", "ಸಮಸ್ಯೆ"
  ]

  const PositiveLabel: string := "Positive \U{1F60A}"
  const NegativeLabel: string := "Negative \U{1F61E}"
  const NeutralLabel: string := "Neutral \U{1F610}"

  /** What one word adds to the score: +1 if it mentions a positive word, -1 if it mentions a
      negative word, both if it mentions both. */
  function WordPolarity(w: string): (p: int)
    ensures -1 <= p <= 1
  {
    (if MentionsAny(w, PositiveWords) then 1 else 0) - (if MentionsAny(w, NegativeWords) then 1 else 0)
  }

  /** The score over a list of words. */
  function Polarity(words: seq<string>): (score: int)
    ensures -|words| <= score <= |words|
    decreases |words|
  {
    if words == [] then 0 else Polarity(words[..|words| - 1]) + WordPolarity(words[|words| - 1])
  }

  /** The score of a concatenation is the sum of the scores. */
  lemma {:induction false} PolarityAppend(a: seq<string>, b: seq<string>)
    ensures Polarity(a + b) == Polarity(a) + Polarity(b)
    decreases |b|
  {
    if b != [] {
      var b' := b[..|b| - 1];
      assert (a + b)[..|a + b| - 1] == a + b';
      assert (a + b)[|a + b| - 1] == b[|b| - 1];
      PolarityAppend(a, b');
    } else {
      assert a + b == a;
    }
  }

  /** A word holding no first character of any of `words` mentions none of them. */
  lemma NoWordMentioned(w: string, words: seq<string>)
    requires forall k :: 0 <= k < |words| ==> words[k] != [] && words[k][0] !in w
    ensures !MentionsAny(w, words)
  {
    forall k | 0 <= k < |words| ensures !Contains(w, words[k]) {
      FirstCharMissing(w, words[k]);
    }
  }

  lemma KhushiIsPositive()
    ensures WordPolarity("ಖುಷಿ") == 1
  {
    assert IsPrefix(PositiveWords[4], "ಖುಷಿ");
    NoWordMentioned("ಖುಷಿ", NegativeWords);
  }

  lemma UttamaIsPositive()
    ensures WordPolarity("ಉತ್ತಮ") == 1
  {
    assert IsPrefix(PositiveWords[2], "ಉತ್ತಮ");
    NoWordMentioned("ಉತ್ತಮ", NegativeWords);
  }

  /** The code as written returns the raw count, not a score in -1..1: two positive words
      score 2. */
  lemma PolarityExceedsOne()
    ensures Polarity(SplitWs("ಖುಷಿ ಉತ್ತಮ")) == 2
  {
    var words := ["ಖುಷಿ", "ಉತ್ತಮ"];
    TwoWords(words[0], words[1]);
    assert words[0] + [' '] + words[1] == "ಖುಷಿ ಉತ್ತಮ";
    KhushiIsPositive();
    UttamaIsPositive();
    assert words[..1] == ["ಖುಷಿ"] && words[..1][..0] == [];
  }

  /** Two words joined by a space split back into the two words. */
  lemma TwoWords(a: string, b: string)
    requires IsWord(a) && IsWord(b)
    ensures SplitWs(a + [' '] + b) == [a, b]
  {
    var words := [a, b];
    SplitWsJoin(words);
    assert Join(words, ' ') == a + [' '] + Join(words[1..], ' ');
  }

  /** `a / n` lies in -1..1 and has the sign of `a` when `|a| <= n`. */
  lemma RatioBounds(a: real, n: real)
    requires n > 0.0 && -n <= a <= n
    ensures -1.0 <= a / n <= 1.0
    ensures a / n > 0.0 <==> a > 0.0
    ensures a / n < 0.0 <==> a < 0.0
  {
    assert a / n * n == a;
  }

  /** The score the docstring describes: the count divided by the number of words, so that it
      lies in -1..1; 0 for text without words. It has the sign of the count. */
  function NormalizedPolarity(words: seq<string>): (p: real)
    ensures -1.0 <= p <= 1.0
    ensures p > 0.0 <==> Polarity(words) > 0
    ensures p < 0.0 <==> Polarity(words) < 0
  {
    if words == [] then 0.0
    else
      RatioBounds(Polarity(words) as real, |words| as real);
      Polarity(words) as real / |words| as real
  }

  /** The label of nlp_utils.py:104-106. */
  function SentimentLabel(score: int): (s: string)
    ensures s == PositiveLabel <==> score > 0
    ensures s == NegativeLabel <==> score < 0
    ensures s == NeutralLabel <==> score == 0
  {
    if score > 0 then PositiveLabel else if score < 0 then NegativeLabel else NeutralLabel
  }

  /** `analyze_sentiment(text)` (nlp_utils.py:82-108). */
  method AnalyzeSentiment(text: string) returns (sentiment: string, score: int)
    ensures score == Polarity(SplitWs(text))
    ensures -|SplitWs(text)| <= score <= |SplitWs(text)|
    ensures sentiment == PositiveLabel <==> score > 0
    ensures sentiment == NegativeLabel <==> score < 0
    ensures sentiment == NeutralLabel <==> score == 0
    ensures sentiment == PositiveLabel <==> NormalizedPolarity(SplitWs(text)) > 0.0
    ensures sentiment == NegativeLabel <==> NormalizedPolarity(SplitWs(text)) < 0.0
  {
    score := 0;
    var words := SplitWs(text);
    var k := 0;
    while k < |words|
      invariant 0 <= k <= |words|
      invariant score == Polarity(words[..k])
    {
      var w := words[k];
      assert words[..k + 1][..k] == words[..k];
      if MentionsAny(w, PositiveWords) {
        score := score + 1;
      }
      if MentionsAny(w, NegativeWords) {
        score := score - 1;
      }
      k := k + 1;
    }
    assert words[..k] == words;
    sentiment := SentimentLabel(score);
  }

  // ---------------------------------------------------------------------------------------
  // simplify_kannada (nlp_utils.py:112-130)

  /** The `replacements` dict of nlp_utils.py:116-124, in its declaration order. The last
      replacement contains a ZERO WIDTH NON-JOINER. */
  const Replacements: seq<(string, string)> := [
    ("ವಿದ್ಯಾರ್ಥಿ", "ಮಕ್ಕಳು"),
    ("ಚಲನಚಿತ್ರ", "ಸಿನಿಮಾ"),
    ("ಆರಕ್ಷಕ", "ಪೊಲೀಸ್"),
    ("ವೈದ್ಯ", "ಡಾಕ್ಟರ್"),
    ("ದೂರವಾಣಿ", "ಫೋನ್"),
    ("ಗ್ರಂಥಾಲಯ", "ಲೈಬ್ರರಿ"),
    ("ವಿಮಾನ ನಿಲ್ದಾಣ", "ಏರ್\U{200C}ಪೋರ್ಟ್")
  ]

  /** Every pattern is non-empty, as `str.replace` needs here. */
  predicate Patterns(reps: seq<(string, string)>) {
    forall k :: 0 <= k < |reps| ==> reps[k].0 != []
  }

  /** The replacements applied one after another, each to the result of the ones before. */
  function ReplaceAll(text: string, reps: seq<(string, string)>): (r: string)
    requires Patterns(reps)
    ensures (forall k :: 0 <= k < |reps| ==> !Contains(text, reps[k].0)) ==> r == text
    ensures forall i :: 0 <= i < |r| ==> r[i] in text || exists k :: 0 <= k < |reps| && r[i] in reps[k].1
    decreases |reps|
  {
    if reps == [] then text
    else
      var prefix := reps[..|reps| - 1];
      var before := ReplaceAll(text, prefix);
      var r := Replace(before, reps[|reps| - 1].0, reps[|reps| - 1].1);
      assert forall k :: 0 <= k < |prefix| ==> prefix[k] == reps[k];
      r
  }

  /** Applying a list of replacements and then another is applying the two lists in turn. */
  lemma {:induction false} ReplaceAllAppend(text: string, a: seq<(string, string)>, b: seq<(string, string)>)
    requires Patterns(a) && Patterns(b)
    ensures Patterns(a + b)
    ensures ReplaceAll(text, a + b) == ReplaceAll(ReplaceAll(text, a), b)
    decreases |b|
  {
    assert forall k :: 0 <= k < |a + b| ==> (a + b)[k] == if k < |a| then a[k] else b[k - |a|];
    if b == [] {
      assert a + b == a;
    } else {
      var b' := b[..|b| - 1];
      assert (a + b)[..|a + b| - 1] == a + b';
      assert (a + b)[|a + b| - 1] == b[|b| - 1];
      ReplaceAllAppend(text, a, b');
    }
  }

  /** The last replacement of a list is applied to the result of the others. */
  lemma ReplaceAllLast(text: string, reps: seq<(string, string)>, pat: string, rep: string)
    requires Patterns(reps) && pat != []
    ensures Patterns(reps + [(pat, rep)])
    ensures ReplaceAll(text, reps + [(pat, rep)]) == Replace(ReplaceAll(text, reps), pat, rep)
    ensures Contains(ReplaceAll(text, reps), pat) ==> Contains(ReplaceAll(text, reps + [(pat, rep)]), rep)
  {
    assert (reps + [(pat, rep)])[..|reps|] == reps;
  }

  /** Replacement `k` acts on the result of the replacements before it. */
  lemma ReplaceAllStep(text: string, reps: seq<(string, string)>, k: nat)
    requires Patterns(reps) && k < |reps|
    ensures Patterns(reps[..k]) && Patterns(reps[..k + 1])
    ensures ReplaceAll(text, reps[..k + 1]) == Replace(ReplaceAll(text, reps[..k]), reps[k].0, reps[k].1)
  {
    assert reps[..k + 1][..k] == reps[..k];
  }

  /** "ಚಲನಚಿತ್ರ" (film) inside a sentence becomes "ಸಿನಿಮಾ". */
  lemma MovieReplaced()
    ensures Replace("ಈ ಚಲನಚಿತ್ರ", "ಚಲನಚಿತ್ರ", "ಸಿನಿಮಾ") == "ಈ ಸಿನಿಮಾ"
  {
    var t := "ಈ ಚಲನಚಿತ್ರ";
    assert !IsPrefix("ಚಲನಚಿತ್ರ", t) by {
      assert t[..|"ಚಲನಚಿತ್ರ"|][0] != "ಚಲನಚಿತ್ರ"[0];
    }
    assert !IsPrefix("ಚಲನಚಿತ್ರ", t[1..]) by {
      assert t[1..][..|"ಚಲನಚಿತ್ರ"|][0] != "ಚಲನಚಿತ್ರ"[0];
    }
    assert t[1..][1..] == "ಚಲನಚಿತ್ರ";
    assert IsPrefix("ಚಲನಚಿತ್ರ", "ಚಲನಚಿತ್ರ");
  }

  /** Once no remaining pattern can occur, the later replacements change nothing. */
  lemma {:induction false} UnchangedFrom(text: string, reps: seq<(string, string)>, from: nat, x: string)
    requires Patterns(reps) && from <= |reps| && ReplaceAll(text, reps[..from]) == x
    requires forall k :: from <= k < |reps| ==> reps[k].0[0] !in x
    ensures ReplaceAll(text, reps) == x
    decreases |reps| - from
  {
    if from == |reps| {
      assert reps[..from] == reps;
    } else {
      ReplaceAllStep(text, reps, from);
      FirstCharMissing(x, reps[from].0);
      UnchangedFrom(text, reps, from + 1, x);
    }
  }

  /** None of the last five patterns can occur in "ಈ ಸಿನಿಮಾ": their first letters are missing. */
  lemma LaterPatternsAbsent()
    ensures forall k :: 2 <= k < |Replacements| ==> Replacements[k].0 != [] && Replacements[k].0[0] !in "ಈ ಸಿನಿಮಾ"
  {
    var u := "ಈ ಸಿನಿಮಾ";
    assert 'ಆ' !in u && 'ವ' !in u && 'ದ' !in u && 'ಗ' !in u;
  }

  /** Two replacements in a row, where the first pattern cannot occur in `t`. */
  lemma FirstTwoReplacements(t: string, reps: seq<(string, string)>, u: string)
    requires Patterns(reps) && |reps| >= 2
    requires reps[0].0[0] !in t
    requires Replace(t, reps[1].0, reps[1].1) == u
    ensures ReplaceAll(t, reps[..2]) == u
  {
    assert reps[..0] == [];
    ReplaceAllStep(t, reps, 0);
    FirstCharMissing(t, reps[0].0);
    ReplaceAllStep(t, reps, 1);
  }

  lemma NoVaInMovieText()
    ensures 'ವ' !in "ಈ ಚಲನಚಿತ್ರ"
  {
  }

  /** `simplify_kannada("ಈ ಚಲನಚಿತ್ರ")` is "ಈ ಸಿನಿಮಾ": the formal word for film is replaced, and
      no other replacement applies. */
  lemma ExampleSimplifyMovie()
    ensures ReplaceAll("ಈ ಚಲನಚಿತ್ರ", Replacements) == "ಈ ಸಿನಿಮಾ"
  {
    assert Patterns(Replacements);
    assert Replacements[0].0[0] == 'ವ' && Replacements[1] == ("ಚಲನಚಿತ್ರ", "ಸಿನಿಮಾ");
    NoVaInMovieText();
    MovieReplaced();
    FirstTwoReplacements("ಈ ಚಲನಚಿತ್ರ", Replacements, "ಈ ಸಿನಿಮಾ");
    LaterPatternsAbsent();
    UnchangedFrom("ಈ ಚಲನಚಿತ್ರ", Replacements, 2, "ಈ ಸಿನಿಮಾ");
  }

  /** `simplify_kannada(text)` (nlp_utils.py:112-130). */
  method SimplifyKannada(text: string) returns (simple: string)
    ensures simple == ReplaceAll(text, Replacements)
  {
    simple := text;
    var k := 0;
    while k < |Replacements|
      invariant 0 <= k <= |Replacements|
      invariant simple == ReplaceAll(text, Replacements[..k])
    {
      var (complexWord, simpleWord) := Replacements[k];
      assert Replacements[..k + 1][..k] == Replacements[..k];
      simple := Replace(simple, complexWord, simpleWord);
      k := k + 1;
    }
    assert Replacements[..k] == Replacements;
  }

  // ---------------------------------------------------------------------------------------
  // basic_translate_en_kn (nlp_utils.py:147-169)

  /** The `dictionary` of nlp_utils.py:151-162. */
  const Dictionary: map<string, string> := map[
    "hello" := "ನಮಸ್ಕಾರ",
    "world" := "ಪ್ರಪಂಚ",
    "love" := "ಪ್ರೀತಿ",
    "kannada" := "ಕನ್ನಡ",
    "good" := "ಒಳ್ಳೆಯ",
    "morning" := "ಮುಂಜಾನೆ/ಶುಭೋದಯ",
    "is" := "ಇದೆ",
    "beautiful" := "ಸುಂದರ",
    "name" := "ಹೆಸರು",
    "my" := "ನನ್ನ"
  ]

  /** `text.lower().replace('.', '').split()` (nlp_utils.py:164). */
  function Words(text: string): (words: seq<string>)
    ensures words == SplitWs(Drop(LowerStr(text), '.'))
    ensures forall k :: 0 <= k < |words| ==> IsWord(words[k])
    ensures forall k, c :: 0 <= k < |words| && c in words[k] ==> c != '.' && !('A' <= c <= 'Z')
  {
    var stripped := Replace(LowerStr(text), ".", "");
    ReplaceCharByNothing(LowerStr(text), '.');
    var words := SplitWs(stripped);
    assert forall k, c :: 0 <= k < |words| && c in words[k] ==> c != '.' && !('A' <= c <= 'Z') by {
      LoweredWithoutStops(text);
      SplitWsChars(stripped);
      forall k, c | 0 <= k < |words| && c in words[k] ensures c != '.' && !('A' <= c <= 'Z') {
        assert c in stripped;
      }
    }
    words
  }

  /** The lower-cased text without full stops has neither full stops nor capitals. */
  lemma LoweredWithoutStops(text: string)
    ensures forall c :: c in Replace(LowerStr(text), ".", "") ==> c != '.' && !('A' <= c <= 'Z')
  {
    var lowered := LowerStr(text);
    var stripped := Replace(lowered, ".", "");
    forall c | c in stripped ensures c != '.' && !('A' <= c <= 'Z') {
      var k :| 0 <= k < |stripped| && stripped[k] == c;
      assert c in lowered;
      var j :| 0 <= j < |lowered| && lowered[j] == c;
      assert c == Lower(text[j]);
    }
  }

  /** `dictionary.get(w, w)` (nlp_utils.py:167): the entry for `w`, or `w` itself when it has none.
      A word always translates to a single word. */
  function TranslateWord(w: string): (r: string)
    ensures IsWord(w) ==> IsWord(r)
  {
    DictionaryValuesAreWords();
    if w in Dictionary then Dictionary[w] else w
  }

  /** Every dictionary value is a single word. */
  lemma DictionaryValuesAreWords()
    ensures forall w :: w in Dictionary ==> IsWord(Dictionary[w])
  {
    assert forall w :: w in Dictionary ==> Dictionary[w] != [] && forall k :: 0 <= k < |Dictionary[w]| ==>
      '\U{0C80}' <= Dictionary[w][k] <= '\U{0CFF}' || Dictionary[w][k] == '/';
  }

  /** `basic_translate_en_kn(text)` (nlp_utils.py:147-169): the words of the lower-cased text
      without full stops, each looked up in the dictionary and kept as it is when missing,
      joined by single spaces. */
  method BasicTranslateEnKn(text: string) returns (out: string)
    ensures |SplitWs(out)| == |Words(text)|
    ensures forall k :: 0 <= k < |Words(text)| ==> SplitWs(out)[k] == TranslateWord(Words(text)[k])
    ensures forall k :: 0 <= k < |Words(text)| && Words(text)[k] !in Dictionary ==> SplitWs(out)[k] == Words(text)[k]
    ensures out == Join(SplitWs(out), ' ')
  {
    var words := Words(text);
    var translated := TranslateEach(words);
    out := Join(translated, ' ');
    JoinedTranslation(words, translated);
  }

  /** The loop of nlp_utils.py:165-167: each word looked up in turn and appended. */
  method TranslateEach(words: seq<string>) returns (translated: seq<string>)
    ensures |translated| == |words|
    ensures forall j :: 0 <= j < |words| ==> translated[j] == TranslateWord(words[j])
  {
    translated := [];
    var k := 0;
    while k < |words|
      invariant 0 <= k <= |words|
      invariant |translated| == k
      invariant forall j :: 0 <= j < k ==> translated[j] == TranslateWord(words[j])
    {
      translated := translated + [TranslateWord(words[k])];
      k := k + 1;
    }
  }

  /** The translated words joined by spaces split back into the translated words. */
  lemma JoinedTranslation(words: seq<string>, translated: seq<string>)
    requires forall j :: 0 <= j < |words| ==> IsWord(words[j])
    requires |translated| == |words|
    requires forall j :: 0 <= j < |words| ==> translated[j] == TranslateWord(words[j])
    ensures SplitWs(Join(translated, ' ')) == translated
  {
    SplitWsJoin(translated);
  }
}
