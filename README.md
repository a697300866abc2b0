# Reddit help-post classifier, modelled in Dafny

The system ingests Reddit posts about embedded programming and decides two
things about each one:

- whether it is a beginner's help request about embedded hardware or
  firmware (`matches_keywords`);
- which of five themes it belongs to (`assign_theme`).

Both decisions are rule lists checked by plain substring containment. The
text they check is `normalize(title + " " + selftext)`: the text lowercased,
with every run of whitespace collapsed to one space and no trimming.

The classifier exists in two variants, modelled side by side:

- `backend/insights/unwrap.py` is the broad variant. It has 8 showcase
  phrases, 16 help signals and 15 keywords. Its theme list is checked in the
  order power, communication, analog/sensors, build errors, fallback.
- `backend/scraper/unwrap.py` is the narrow variant. It has 5 showcase
  phrases, 6 help signals and 8 keywords. Its theme list checks build errors
  before analog/sensors, and its analog group lacks "voltage divider".

The modules are:

- `Text`: whitespace, ASCII lowercasing, run collapsing and `Normalize`,
  with its algebra (idempotence, the fixpoint characterisation, case and
  run-length insensitivity), plus substring containment (`Contains`,
  `ContainsAny`) and the lemmas used to reason about it.
- `Posts`: the `Post` record, the matched text `PostText`, and the `Theme`
  type with its five labels. `normalize` and `Post` are textually identical
  in the two source files, so they are modelled once here and shared by both
  variants.
- `InsightsUnwrap`: the broad variant. `matches_keywords` is imperative in
  the source: `for` loops with early returns, and a flag set before a
  `break`. It is therefore a `method` with those loops, proved against the
  predicate `Accepts`. `assign_theme` is the pure decision list `ThemeOf`.
- `ScraperUnwrap`: the narrow variant. All of it is `any(...)` expressions,
  so it is modelled as pure functions.
- `Variants`: how the two variants relate. The narrow lists are sublists of
  the broad ones. The filters disagree only in the ways the list
  differences allow. The theme lists disagree exactly when a text has an
  analog word and a build word but no power or communication word.

The worked examples are short texts written already normalized:
lowercase, single spaces and a trailing space, as a post with an empty body
is matched. `PostTextOfNormalized` together with the postcondition of
`MatchesKeywords` carries them to a `Post`; `HelpWithKeywordPostAccepted`
does so for the post with title "help uart" and an empty body.

Where the design description and the code differ, the model follows the
code:

- The design describes one classifier. The code has two variants with
  different lists and theme orders.
- The design calls the theme groups disjoint. They are not: the power
  group's "voltage" lies inside the analog group's "voltage divider", so
  that entry never decides (`VoltageDividerNeverDecides`). Separately, the
  communication group's "can" also fires on the help signals "can't" and
  "cant" (`CantIsCommunication`).
- The design says theme assignment is meant only for accepted posts. The
  code has no such guard, so `AssignTheme` has no precondition.
- The design lists the showcase phrases in a different order. The code's
  order is used; the order does not change any result.

## Model

| member | source | states |
|---|---|---|
| Text.IsWhitespace | backend/insights/unwrap.py:29 | the characters `\s` matches: the characters Python's `str.isspace` accepts (ASCII space, tab to carriage return, the separators U+001C-U+001F, and the Unicode spaces); its behaviour is stated through `CollapseShape`, `LowerChar` and `NormalizeShape` |
| Text.LowerChar | backend/insights/unwrap.py:28 | the result is never an ASCII capital; a capital maps to its lowercase letter (code point plus 32) and every other character is kept; whitespace stays whitespace |
| Text.Lower | backend/insights/unwrap.py:28 | lowercasing keeps the length and maps every character through `LowerChar` |
| Text.DropWhitespace | backend/insights/unwrap.py:29 | dropping a leading whitespace run never lengthens the text and leaves no whitespace at its head |
| Text.DropWhitespaceSuffix | backend/insights/unwrap.py:29 | what is dropped is exactly a leading all-whitespace prefix, and the rest is kept as a suffix |
| Text.CollapseShape | backend/insights/unwrap.py:29 | collapsing `\s+` to one space gives a collapsed text; it is empty only for an empty input; its first and last characters are a space exactly where the input had whitespace (no trimming) |
| Text.Collapse | backend/insights/unwrap.py:29 | `re.sub(r"\s+", " ", text)`: each maximal whitespace run, scanned left to right, becomes one space. Its behaviour is stated by `CollapseShape`, `SqueezeCollapse`, `CollapseFixpoint`, `CollapseLeadingRun` and `CollapseRunToSpace` |
| Text.ConsCollapsed | backend/insights/unwrap.py:29 | a space followed by a non-whitespace start, or any non-whitespace character, in front of a collapsed text keeps it collapsed |
| Text.Normalize | backend/insights/unwrap.py:25-30 | `normalize("")` is `""` and the output is empty only for an empty input |
| Text.NormalizeShape | backend/insights/unwrap.py:25-30 | the output has no capitals, no whitespace other than ' ' and no two adjacent whitespace characters; leading and trailing whitespace survive as one space; the non-whitespace characters are exactly the input's, lowercased, in order |
| Text.CollapseKeepsNoUpper | backend/insights/unwrap.py:28-29 | collapsing whitespace after lowercasing introduces no capitals |
| Text.SqueezeDropWhitespace | backend/insights/unwrap.py:29 | dropping a whitespace run loses no non-whitespace character |
| Text.SqueezeCollapse | backend/insights/unwrap.py:29 | collapsing whitespace keeps every non-whitespace character, in order |
| Text.SqueezeLower | backend/insights/unwrap.py:28 | lowercasing commutes with removing whitespace |
| Text.CollapseFixpoint | backend/insights/unwrap.py:29 | a text that is already collapsed is left unchanged by the substitution |
| Text.LowerFixpoint | backend/insights/unwrap.py:28 | a text without capitals is left unchanged by lowercasing |
| Text.NormalizeFixpointIff | backend/insights/unwrap.py:25-30 | `normalize(s) == s` holds exactly when `s` has no capitals and is collapsed, in both directions |
| Text.NormalizeIdempotent | backend/scraper/unwrap.py:13-18 | `normalize(normalize(x)) == normalize(x)` for every text |
| Text.NormalizeIgnoresCase | backend/insights/unwrap.py:25-30 | lowercasing before normalizing changes nothing |
| Text.DropWhitespaceConcat | backend/insights/unwrap.py:29 | dropping leading whitespace from a text whose first part ends in a non-space only affects that first part |
| Text.DropWhitespaceRun | backend/insights/unwrap.py:29 | dropping a whitespace run in front of a non-space start gives exactly the rest |
| Text.CollapseConcat | backend/insights/unwrap.py:29 | collapsing distributes over a join after a non-whitespace character |
| Text.LowerConcat | backend/insights/unwrap.py:28 | lowercasing distributes over concatenation |
| Text.CollapseLeadingRun | backend/insights/unwrap.py:29 | a leading whitespace run becomes one space in front of the collapsed rest |
| Text.CollapseRunToSpace | backend/insights/unwrap.py:29 | an inner whitespace run between non-whitespace characters collapses to one space |
| Text.RunNormalizesToSpace | backend/insights/unwrap.py:25-30 | normalizing a text with an inner whitespace run gives the two normalized sides joined by one space |
| Text.NormalizeIgnoresRunLength | backend/insights/unwrap.py:25-30 | any two non-empty whitespace runs between the same two sides normalize to the same text: the sides joined by one space |
| Text.Contains | backend/insights/unwrap.py:76 | Python's `p in t`: `p` occurs at some index of `t`, with no word boundaries. Its behaviour is stated by `ContainsTransitive`, `ContainsHasChars`, `NotContainsMissingChar`, `ContainsInConcat` and `NotContainsAcross` |
| Text.ContainsAny | backend/insights/unwrap.py:123 | `any(k in t for k in ks)`: some phrase of the list is contained. `NoneOccurs` and `Variants.AnySublist` state its behaviour |
| Text.ContainsTransitive | backend/insights/unwrap.py:76 | whatever occurs inside an occurring phrase occurs in the text |
| Text.ContainsHasChars | backend/insights/unwrap.py:76 | every character of an occurring phrase is a character of the text |
| Text.NotContainsMissingChar | backend/insights/unwrap.py:76 | a phrase with a character the text lacks does not occur |
| Text.ContainsInConcat | backend/insights/unwrap.py:61 | a phrase occurring in the title part or in the body part occurs in their join |
| Text.NotContainsAcross | backend/insights/unwrap.py:61 | a phrase without the separator character occurs in `a + [c] + b` only if it occurs in `a` or in `b`, so only phrases containing the space can straddle the join |
| Text.NoneOccurs | backend/insights/unwrap.py:75-77 | no phrase of a list occurs when each phrase has a character the text lacks |
| Posts.Post | backend/insights/unwrap.py:11-18 | the dataclass with its six fields; `score`, `numComments` and `url` are never read by the classifier. It is a plain record and has no contract |
| Posts.PostText | backend/insights/unwrap.py:61 | `normalize(post.title + " " + post.selftext)`, the text every rule reads. Its behaviour is stated by `PostTextShape`, `PostTextOfNormalized`, `PhraseStraddlesJoin` and `PhraseWithoutSpaceStaysInField` |
| Posts.PostTextShape | backend/insights/unwrap.py:61 | the matched text is normalized and never empty (the join always contributes a space), and its non-whitespace characters are those of title and body, lowercased |
| Posts.SqueezeConcat | backend/insights/unwrap.py:61 | removing whitespace distributes over the join of title and body |
| Posts.PostTextOfNormalized | backend/insights/unwrap.py:61 | when the joined text is already normalized, matching sees exactly title, one space and body |
| Posts.PhraseStraddlesJoin | backend/insights/unwrap.py:61 | a phrase made of the title's end, the space and the body's start occurs in the matched text: containment has no word or field boundaries |
| Posts.PhraseWithoutSpaceStaysInField | backend/insights/unwrap.py:61 | in an already normalized post, a phrase without a space occurs in the matched text exactly when it occurs in the title or in the body: only phrases containing the joining space can straddle the join |
| Posts.Label | backend/insights/unwrap.py:120-135 | the label string returned for each theme. `LabelsAreFiveDistinct` states that it is one of the five and injective |
| Posts.LabelsAreFiveDistinct | backend/insights/unwrap.py:120-135 | every theme's label is one of the five label strings, and different themes have different labels |
| InsightsUnwrap.Accepts | backend/insights/unwrap.py:75-113 | the verdict of the three passes as one predicate: no showcase phrase, some help signal, some keyword. `MatchesKeywords` is proved equal to it, and the worked examples and the `Variants` lemmas state its behaviour |
| InsightsUnwrap.MatchesKeywords | backend/insights/unwrap.py:60-113 | the three ordered passes return true exactly when there is no showcase phrase, some help signal and some keyword; any showcase phrase forces false |
| InsightsUnwrap.AssignTheme | backend/insights/unwrap.py:120-135 | the result is always one of the five labels |
| InsightsUnwrap.ThemeOf | backend/insights/unwrap.py:123-135 | the decision list in order: power, communication, analog (with "voltage divider"), build errors, fallback. Its behaviour is stated by `PowerWordDecides`, `VoltageDividerNeverDecides`, `CanCapturesCommunication`, `CantIsCommunication`, `ErrorNeverGeneral`, `GeneralIffNoGroup` and `ProtocolKeywordTheme` |
| InsightsUnwrap.PowerWordDecides | backend/insights/unwrap.py:123-124 | any power word gives "Wiring & Power", whatever communication, analog or error words are present |
| InsightsUnwrap.VoltageDividerNeverDecides | backend/insights/unwrap.py:123-130 | a text containing "voltage divider" is always power, and an analog verdict is always due to sensor, adc or analog |
| InsightsUnwrap.CanCapturesCommunication | backend/insights/unwrap.py:126-127 | any occurring word that contains "can" makes a text with no power word a communication question |
| InsightsUnwrap.CantIsCommunication | backend/insights/unwrap.py:123-127 | "can't", "cant" and "scan" each make a text with no power word a communication question |
| InsightsUnwrap.ErrorNeverGeneral | backend/insights/unwrap.py:132-135 | a text containing "error" never gets the fallback label |
| InsightsUnwrap.GeneralIffNoGroup | backend/insights/unwrap.py:120-135 | the fallback is chosen exactly when none of the four groups occurs |
| InsightsUnwrap.ProtocolKeywordTheme | backend/insights/unwrap.py:123-130 | a text containing i2c, spi, uart, serial, sensor or adc is labelled power, communication or analog |
| InsightsUnwrap.SerializationMatchesSerial | backend/insights/unwrap.py:109-111 | "serialization" satisfies the keyword pass through "serial" and is labelled power or communication |
| InsightsUnwrap.ShowcaseRejectedDespiteHelp | backend/insights/unwrap.py:75-77 | "i made uart help " is rejected even though it has a help signal and a keyword |
| InsightsUnwrap.KeywordWithoutHelpRejected | backend/insights/unwrap.py:99-106 | "esp32 " has a keyword but no help signal, and is rejected |
| InsightsUnwrap.HelpWithoutKeywordRejected | backend/insights/unwrap.py:108-113 | "help " has a help signal but no keyword, and is rejected |
| InsightsUnwrap.HelpWithKeywordAccepted | backend/insights/unwrap.py:75-111 | "help uart " passes all three passes |
| InsightsUnwrap.HelpWithKeywordPostAccepted | backend/insights/unwrap.py:60-111 | a post with title "help uart" and an empty body is matched as "help uart ", which the broad filter accepts, so `MatchesKeywords` returns true on it |
| ScraperUnwrap.Accepts | backend/scraper/unwrap.py:24-36 | the narrow verdict: none of the 5 showcase phrases, one of the 6 help signals, one of the 8 keywords. `MatchesKeywords` is proved equal to it, and the `Variants` lemmas relate it to the broad verdict |
| ScraperUnwrap.MatchesKeywords | backend/scraper/unwrap.py:20-36 | true exactly when none of the 5 showcase phrases, some of the 6 help signals and some of the 8 keywords occur |
| ScraperUnwrap.AssignTheme | backend/scraper/unwrap.py:38-50 | the result is always one of the five labels |
| ScraperUnwrap.ThemeOf | backend/scraper/unwrap.py:41-50 | the decision list in order: power, communication, build errors, analog (without "voltage divider"), fallback. Its behaviour is stated by `ErrorBeforeAnalog`, `GeneralIffNoGroup`, `AcceptedProtocolIsCommunication` and `Variants.ThemesDisagreeIff` |
| ScraperUnwrap.ErrorBeforeAnalog | backend/scraper/unwrap.py:41-48 | "sensor" together with "error", with no power or communication word, gives "Build / Compile Errors" |
| ScraperUnwrap.GeneralIffNoGroup | backend/scraper/unwrap.py:38-50 | the fallback is chosen exactly when none of the four groups occurs |
| ScraperUnwrap.AcceptedProtocolIsCommunication | backend/scraper/unwrap.py:35-44 | an accepted text containing uart, i2c or spi and no power word gives "Communication" |
| Variants.NarrowListsAreSublists | backend/scraper/unwrap.py:24-35 | every narrow showcase phrase, help signal and keyword is also in the broad variant's list |
| Variants.AnySublist | backend/scraper/unwrap.py:25 | an `any` over a sublist implies the `any` over the larger list |
| Variants.NarrowAcceptImpliesBroad | backend/scraper/unwrap.py:20-36 | a text the narrow filter keeps is kept by the broad one unless it has a broad-only showcase phrase |
| Variants.BroadAcceptImpliesNarrow | backend/scraper/unwrap.py:20-36 | a text the broad filter keeps is kept by the narrow one when it also has a narrow help signal and a narrow keyword |
| Variants.AnalogGroupsAgree | backend/scraper/unwrap.py:47-48 | with no power word, the three-entry and four-entry analog groups match the same texts |
| Variants.ThemesDisagreeIff | backend/scraper/unwrap.py:41-48 | the two theme lists differ exactly when there is no power or communication word but there are an analog word and a build word; the broad one then says analog and the narrow one build errors |
| Variants.SensorErrorExample | backend/scraper/unwrap.py:45-48 | "sensor error " is analog for the broad variant and build errors for the narrow one |
| Variants.BroadOnlySignalsDropped | backend/scraper/unwrap.py:29-32 | a text whose only broad help signals are "why", "can't" or "unable" has no narrow help signal and is dropped by the narrow filter |
| Variants.BroadOnlyKeywordsDropped | backend/scraper/unwrap.py:35-36 | a text whose only broad keywords are "serial", "sensor" or "gpio" has no narrow keyword and is dropped by the narrow filter |
| Variants.BroadKeepsWhy | backend/insights/unwrap.py:75-111 | the broad filter keeps "why uart ", whose only help signal is "why" |
| Variants.BroadKeepsGpio | backend/insights/unwrap.py:75-111 | the broad filter keeps "gpio problem ", whose only keyword is "gpio" |
| Variants.NarrowDropsWhy | backend/scraper/unwrap.py:29-32 | "why uart " has none of the 6 narrow help signals, so the narrow filter drops a text the broad filter keeps |
| Variants.NarrowDropsGpio | backend/scraper/unwrap.py:35-36 | "gpio problem " has none of the 8 narrow keywords, so the narrow filter drops a text the broad filter keeps |
| Variants.UpdateToMyIsNarrowAccepted | backend/scraper/unwrap.py:24-26 | "help uart update to my " is dropped by the broad filter and kept by the narrow one: "update to my" is a broad-only showcase phrase (the narrow half is proved by the helper `NarrowKeepsUpdateToMy`) |

## Left out

- `backend/scraper/main.py` is not part of this model. It loads credentials, builds the Reddit and Supabase clients, fetches new posts, upserts by URL and logs; it has no decision logic of its own.
- `load_posts_from_csv` (backend/insights/unwrap.py:142-157) is file I/O with `csv.DictReader`, and its `int()` conversions can raise.
- The `__main__` block (backend/insights/unwrap.py:164-171) only prints.
- Text.Lower: lowercases ASCII A-Z only; Python's Unicode `str.lower()` also folds other scripts and can change the length of a string. Two folds change matching even against the ASCII rule lists: U+212A KELVIN SIGN lowercases to ASCII 'k', so "not wor\u212Aing" holds the help signal "not working" in Python but not in the model; U+0130 lowercases to "i" followed by a combining dot, so it yields an ASCII 'i' that the model does not produce.
- Text.Normalize: whitespace is the set Python's `str.isspace` accepts, written out as a predicate, and the `re` engine itself is not modelled.
- InsightsUnwrap.AssignTheme and ScraperUnwrap.AssignTheme state only that the label is one of five. What each label means is stated about `ThemeOf` by the theme lemmas beside them.
- The worked examples are stated on short normalized texts rather than on raw posts with mixed case or whitespace; `HelpWithKeywordPostAccepted` shows the step from a text to a post for one of them.
- Determinism and the absence of shared state, which the design promises, hold because every member is a function or a method that changes nothing.
