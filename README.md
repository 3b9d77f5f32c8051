# Davidsen shop spider: the text helpers

The spider walks a Danish building-supply web shop (home page, then main
category, then sub-categories, then item lists) and records one row per
product. Between the page navigation it runs a handful of pure text helpers.
This project models those helpers in Dafny and proves what each one does:

- **Dimension splitter** (`extract_dimensions_from_full_name`). A product's
  display name such as `"Crown Deck 22x140 mm"` is split into the name
  (`"Crown Deck"`), the dimensions (`"22x140"`) and their unit (`"mm"`). It
  does this with a `re.search` of `" (\d+ ?x ?\d+) (\w+)"`. Module
  `Dimensions`.
- **Danish number conversion** (`try_to_convert_to_float`). The point becomes
  `_` and the comma becomes `.`, and the result is handed to `float()`. So
  `"1.234,56"` reads as `1_234.56`, which is 1234.56. Module `LocaleNumber`.
  `float()` is modelled by the decimal grammar it accepts:
  - surrounding whitespace: the ASCII blanks (tab, line feed, vertical tab,
    form feed, carriage return, space) and non-ASCII whitespace, but not the
    ASCII separators U+001C to U+001F, which `float()` does not strip;
  - an optional sign;
  - digit groups joined by single underscores;
  - an optional point and fraction.
  The value is an exact `real`.
- **Price selection** (`get_price`, without the CSS query). Keep the
  candidate texts that convert, in order. When the price may be missing, take
  the first one. Otherwise insist on exactly one, or the `assert` fails. Module
  `Price`.
- **Menu lookup** (`get_dict_key_with_value_containing_target`). Find the one
  menu element whose texts include a target string, or raise
  `UnexpectedResultError` (several hits) or `OutdatedError` (none). The
  dictionary is built with `enumerate`, so it is modelled as a sequence indexed
  by its keys. Module `ElementLookup`. The exceptions of
  `seven_mio_project/CustomExceptions.py` are the `CustomExceptions.Error`
  datatype.
- **Danish letters** (`replace_danish_letters`). `æ ø å Æ Ø Å` become
  `ae oe aa AE OE AA`. Module `DanishLetters`.
- **Unit label** (`unit.strip("kr./")`). Module `UnitLabel`.

`Wrappers` holds the `Option` and `Result` datatypes.

The model follows the code as written:
- The dimension clause has exactly two digit-only numbers; a third one, or a
  decimal comma, is not part of the match.
- On a match, the name is the text before the match. It is not the name with
  the clause cut out.
- Without a match, all three results are `None`. The name is not returned
  unchanged.
- Thousands points are not removed. They become `_`, which `float()` accepts
  between any two digits. So `"1.2.3"` converts to 123, and two commas fail
  only because `float()` rejects two points.

## Model

| member | source | states |
|---|---|---|
| Dimensions.ExtractDimensionsFromFullName | seven_mio_project/spiders/DavidsenShopSpider.py:180-190 | The three results are all `None` or all present, and a present name is a proper prefix of the full name; `ExtractWithMatch` and `ExtractWithoutMatch` characterise the results completely |
| Dimensions.MatchAt | seven_mio_project/spiders/DavidsenShopSpider.py:181-182 | A match tried at one index starts there, and its two digit runs, its space and its unit follow in order within the string; `MatchAtSound` and `MatchAtComplete` relate it to every occurrence of the pattern |
| Dimensions.MatchAfterFirstRun | seven_mio_project/spiders/DavidsenShopSpider.py:181 | After the first digit run, a match keeps that run and places the second run and the unit after it |
| Dimensions.MatchAfterSecondRun | seven_mio_project/spiders/DavidsenShopSpider.py:181 | After the second digit run, a match keeps every earlier part and adds a non-empty unit after the space |
| Dimensions.RunEnd | seven_mio_project/spiders/DavidsenShopSpider.py:181 | A greedy `\d+` or `\w+` run stops within the string, at a character outside its class or at the end |
| Dimensions.RunEndSpan | seven_mio_project/spiders/DavidsenShopSpider.py:181 | Every character the greedy run passes over is of its class |
| Dimensions.RunEndIs | seven_mio_project/spiders/DavidsenShopSpider.py:181 | A run of the class that cannot be extended is exactly the one the greedy run finds |
| Dimensions.RunEndCovers | seven_mio_project/spiders/DavidsenShopSpider.py:181 | The greedy run reaches at least as far as any run of the class from the same place |
| Dimensions.MatchAtSound | seven_mio_project/spiders/DavidsenShopSpider.py:181-182 | What the matcher finds at an index is an occurrence of the pattern starting there, with a unit that cannot be extended |
| Dimensions.MatchAtComplete | seven_mio_project/spiders/DavidsenShopSpider.py:181-182 | Every occurrence of the pattern at an index is found there, with the same digit runs and optional spaces and a unit at least as long |
| Dimensions.OccursForced | seven_mio_project/spiders/DavidsenShopSpider.py:181 | In any occurrence of the pattern both digit runs are as long as they can be, and each optional space is taken exactly when there is one |
| Dimensions.MatchAtGreedy | seven_mio_project/spiders/DavidsenShopSpider.py:181-182 | An occurrence at an index is found there with its unit extended as far as word characters go |
| Dimensions.SearchFrom | seven_mio_project/spiders/DavidsenShopSpider.py:182 | `re.search` returns the first index from which the pattern matches, and no earlier index matches |
| Dimensions.SearchIsLeftmost | seven_mio_project/spiders/DavidsenShopSpider.py:182 | The match found starts no later than any occurrence of the pattern |
| Dimensions.SearchFromFinds | seven_mio_project/spiders/DavidsenShopSpider.py:182 | If the pattern matches at an index and at no earlier index, the search returns that match |
| Dimensions.NoMatchAt | seven_mio_project/spiders/DavidsenShopSpider.py:181 | The pattern cannot start anywhere except at a space followed by a digit |
| Dimensions.RemoveSpaces | seven_mio_project/spiders/DavidsenShopSpider.py:188 | `replace(" ", "")` leaves no spaces |
| Dimensions.RemoveSpacesConcat | seven_mio_project/spiders/DavidsenShopSpider.py:188 | Removing spaces distributes over concatenation |
| Dimensions.RemoveSpacesNone | seven_mio_project/spiders/DavidsenShopSpider.py:188 | A text without spaces is left unchanged |
| Dimensions.DimensionsText | seven_mio_project/spiders/DavidsenShopSpider.py:187-188 | Group 1 with its spaces removed is the first digit run, `x`, and the second digit run |
| Dimensions.ExtractWithoutMatch | seven_mio_project/spiders/DavidsenShopSpider.py:184-185 | The name is `None` exactly when the pattern occurs nowhere, and then all three results are `None` |
| Dimensions.ExtractWithMatch | seven_mio_project/spiders/DavidsenShopSpider.py:180-190 | On a match there is a leftmost occurrence with a maximal unit, and the results are: the text before it, the two digit runs joined by `x`, and the unit word |
| Dimensions.NameHasNoDimensions | seven_mio_project/spiders/DavidsenShopSpider.py:189 | Extracting again from the returned name finds nothing: the name contains no dimension clause |
| Dimensions.ExtractWithoutSpaceDigit | seven_mio_project/spiders/DavidsenShopSpider.py:181-185 | A name in which no space is followed by a digit gives three `None`s |
| Dimensions.ExtractAt | seven_mio_project/spiders/DavidsenShopSpider.py:180-190 | Given a match at an index where no earlier index matches, the three results are its prefix, its dimensions and its unit |
| Dimensions.NoMatchBefore | seven_mio_project/spiders/DavidsenShopSpider.py:181-182 | Where no space is followed by a digit, the pattern matches at no index |
| Dimensions.ExtractFound | seven_mio_project/spiders/DavidsenShopSpider.py:182-190 | Once the search returns an occurrence, the results are its prefix, its digit runs joined by `x`, and its unit |
| Dimensions.ExtractCrownDeck | seven_mio_project/spiders/DavidsenShopSpider.py:180-190 | `"Crown Deck 22x140 mm"` gives `"Crown Deck"`, `"22x140"` and `"mm"` |
| Dimensions.ExtractNordicDeck | seven_mio_project/spiders/DavidsenShopSpider.py:180-190 | `"Nordic Deck Classic 22 x 140 mm x 3,6 m"` gives `"Nordic Deck Classic"`, `"22x140"` and `"mm"`: the third number is not captured |
| Dimensions.ExtractNoDimensions | seven_mio_project/spiders/DavidsenShopSpider.py:184-185 | A name without a dimension clause gives three `None`s, not the name |
| LocaleNumber.Translate | seven_mio_project/spiders/DavidsenShopSpider.py:100-101 | The translation keeps the length, maps `.` to `_` and `,` to `.`, and leaves every other character alone |
| LocaleNumber.TranslateConcat | seven_mio_project/spiders/DavidsenShopSpider.py:100-101 | The translation distributes over concatenation |
| LocaleNumber.SpaceFrom | seven_mio_project/spiders/DavidsenShopSpider.py:103 | The leading whitespace `float()` strips (ASCII blanks and non-ASCII whitespace, not U+001C to U+001F) ends at a character that is not whitespace, or at the end |
| LocaleNumber.SpaceUntil | seven_mio_project/spiders/DavidsenShopSpider.py:103 | The trailing whitespace `float()` strips (the same set) begins after a character that is not whitespace |
| LocaleNumber.Unsigned | seven_mio_project/spiders/DavidsenShopSpider.py:103 | The sign and the unsigned rest together spell the stripped number |
| LocaleNumber.SplitAtPoint | seven_mio_project/spiders/DavidsenShopSpider.py:103 | Splitting at the first point gives a whole part without points, and the parts spell the body again |
| LocaleNumber.ParseLiteral | seven_mio_project/spiders/DavidsenShopSpider.py:103 | What `float()` accepts is a well-formed literal (`Literal.WellFormed` is the decimal grammar, `Literal.Value` its exact value); `ParseLiteralSound` and `ParseLiteralComplete` make the parser the exact inverse of spelling a literal |
| LocaleNumber.ParseLiteralSound | seven_mio_project/spiders/DavidsenShopSpider.py:102-105 | What `float()` accepts is a well-formed decimal literal that spells exactly the input |
| LocaleNumber.ParseLiteralComplete | seven_mio_project/spiders/DavidsenShopSpider.py:102-105 | Every well-formed decimal literal is accepted and read back as itself, so each text has one reading |
| LocaleNumber.TryToConvertToFloat | seven_mio_project/spiders/DavidsenShopSpider.py:99-105 | The empty text does not convert; `TryToConvertSpec` characterises the result in both directions |
| LocaleNumber.TryToConvertSpec | seven_mio_project/spiders/DavidsenShopSpider.py:99-105 | The conversion succeeds exactly when the translated text is a well-formed literal, and it returns that literal's value; otherwise it returns `None` |
| LocaleNumber.Danish | seven_mio_project/spiders/DavidsenShopSpider.py:100 | The Danish spelling, the inverse of the translation: `_` becomes `.`, `.` becomes `,`, and nothing else changes |
| LocaleNumber.DanishInverse | seven_mio_project/spiders/DavidsenShopSpider.py:100-101 | On a text without commas, translating the Danish spelling gives the text back |
| LocaleNumber.TranslateDanish | seven_mio_project/spiders/DavidsenShopSpider.py:100-101 | Translating the Danish spelling of a literal gives the literal back |
| LocaleNumber.DanishRoundTrip | seven_mio_project/spiders/DavidsenShopSpider.py:99-105 | Every number `float()` accepts, written in the Danish way, converts to its exact value |
| LocaleNumber.TextPoint | seven_mio_project/spiders/DavidsenShopSpider.py:103 | A literal's only point is the one between its whole part and its fraction |
| LocaleNumber.ConvertedAlphabet | seven_mio_project/spiders/DavidsenShopSpider.py:99-105 | In the model, a text that converts contains only digits, `.`, `,`, `_`, signs and whitespace (Python's `float()` also takes exponents, `inf` and `nan`; see "Left out") |
| LocaleNumber.ConvertedOneComma | seven_mio_project/spiders/DavidsenShopSpider.py:99-105 | A text that converts has at most one decimal comma |
| LocaleNumber.ConvertRejectsLetters | seven_mio_project/spiders/DavidsenShopSpider.py:102-105 | In the model, a text with an ASCII letter in it, such as a unit, gives `None` (Python's `float()` also takes exponents, `inf` and `nan`; see "Left out") |
| LocaleNumber.ConvertRejectsSeparators | seven_mio_project/spiders/DavidsenShopSpider.py:102-105 | A text with an ASCII separator U+001C to U+001F in it, such as `"\x1c1"`, gives `None`: `float()` does not strip these as whitespace, so it raises `ValueError` |
| LocaleNumber.ConvertRejectsTwoCommas | seven_mio_project/spiders/DavidsenShopSpider.py:102-105 | A text with two commas gives `None` |
| LocaleNumber.ConvertThousands | seven_mio_project/spiders/DavidsenShopSpider.py:99-105 | `"1.234,56"` converts to 1234.56 |
| LocaleNumber.ConvertDecimalComma | seven_mio_project/spiders/DavidsenShopSpider.py:99-105 | `"12,5"` converts to 12.5 |
| Price.GetPriceWith | seven_mio_project/spiders/DavidsenShopSpider.py:82-96 | When the price may be missing, `get_price` always returns; when it is required, it never returns `None`. `GetPriceLenient` and `GetPriceStrict` say which value it returns |
| Price.GetPrice | seven_mio_project/spiders/DavidsenShopSpider.py:82-96 | The same two promises, with `try_to_convert_to_float` as the converter |
| Price.ConvertAll | seven_mio_project/spiders/DavidsenShopSpider.py:85-89 | The list comprehension keeps no more prices than there are candidates |
| Price.ConvertAllConcat | seven_mio_project/spiders/DavidsenShopSpider.py:85-89 | Filtering distributes over concatenation, so candidate order is kept |
| Price.ConvertAllEmpty | seven_mio_project/spiders/DavidsenShopSpider.py:85-89 | No price is kept exactly when no candidate converts |
| Price.ConvertAllHead | seven_mio_project/spiders/DavidsenShopSpider.py:85-92 | The first price kept is the value of the first candidate that converts |
| Price.ConvertAllSingle | seven_mio_project/spiders/DavidsenShopSpider.py:85-96 | Exactly one price is kept exactly when exactly one candidate converts, and it is that candidate's value |
| Price.GetPriceLenient | seven_mio_project/spiders/DavidsenShopSpider.py:91-92 | When the price may be missing, `get_price` never fails. It returns the first convertible candidate's value, or `None` exactly when none converts |
| Price.GetPriceStrict | seven_mio_project/spiders/DavidsenShopSpider.py:94-96 | When the price is required, `get_price` never returns `None`. It returns a price exactly when one candidate alone converts, and that price is its value; otherwise the `assert` fails |
| Price.GetPriceExampleStrict | seven_mio_project/spiders/DavidsenShopSpider.py:82-96 | From `"1.234,56"` and the unit label `"kr./stk"`, a required price is 1234.56 |
| Price.GetPriceExampleLenient | seven_mio_project/spiders/DavidsenShopSpider.py:82-92 | From the same two texts, a price that may be missing is also 1234.56 |
| ElementLookup.HitsFrom | seven_mio_project/spiders/DavidsenShopSpider.py:159 | The hits are in increasing order, each hit's texts contain the target, and every key whose texts contain the target is a hit |
| ElementLookup.GetKeyWithValueContainingTarget | seven_mio_project/spiders/DavidsenShopSpider.py:158-166 | A key it returns is a key of the menu whose texts contain the target |
| ElementLookup.NoHits | seven_mio_project/spiders/DavidsenShopSpider.py:159-165 | The list of hits is empty exactly when no element's texts contain the target |
| ElementLookup.ManyHits | seven_mio_project/spiders/DavidsenShopSpider.py:159-163 | The list of hits has more than one entry exactly when two different elements contain the target |
| ElementLookup.SingleHit | seven_mio_project/spiders/DavidsenShopSpider.py:159-166 | The list has one hit exactly when one element alone contains the target, and then the hit is that element |
| ElementLookup.LookupFound | seven_mio_project/spiders/DavidsenShopSpider.py:158-166 | The lookup returns a key exactly when one element alone contains the target, and the key is that element's |
| ElementLookup.LookupOutdated | seven_mio_project/spiders/DavidsenShopSpider.py:164-165 | The lookup raises `OutdatedError` exactly when no element contains the target |
| ElementLookup.LookupAmbiguous | seven_mio_project/spiders/DavidsenShopSpider.py:162-163 | The lookup raises `UnexpectedResultError` exactly when two elements contain the target |
| ElementLookup.LookupFindsOne | seven_mio_project/spiders/DavidsenShopSpider.py:158-166 | On a small menu where one element holds `"byg"`, the lookup returns that element's key |
| ElementLookup.LookupFindsTwo | seven_mio_project/spiders/DavidsenShopSpider.py:162-163 | Two elements holding `"byg"` raise `UnexpectedResultError` |
| ElementLookup.LookupFindsNone | seven_mio_project/spiders/DavidsenShopSpider.py:164-165 | A menu without `"byg"`, the empty one included, raises `OutdatedError` |
| DanishLetters.Replacement | seven_mio_project/spiders/DavidsenShopSpider.py:135-138 | Each Danish letter maps to two characters that are not Danish letters. Every other character maps to itself. The exact spellings are fixed by `ReplacementLower` and `ReplacementUpper` |
| DanishLetters.ReplaceDanishLetters | seven_mio_project/spiders/DavidsenShopSpider.py:134-140 | The result has no Danish letters, and it is one character longer for each Danish letter in the word |
| DanishLetters.ReplaceConcat | seven_mio_project/spiders/DavidsenShopSpider.py:139-140 | The translation works character by character: it distributes over concatenation |
| DanishLetters.ReplaceIdentity | seven_mio_project/spiders/DavidsenShopSpider.py:139-140 | A word without Danish letters is returned unchanged |
| DanishLetters.ReplaceIdempotent | seven_mio_project/spiders/DavidsenShopSpider.py:139-140 | Translating twice is the same as translating once |
| DanishLetters.ReplacementLower | seven_mio_project/spiders/DavidsenShopSpider.py:135 | `æøå` becomes `aeoeaa` |
| DanishLetters.ReplacementUpper | seven_mio_project/spiders/DavidsenShopSpider.py:136-137 | `ÆØÅ` becomes `AEOEAA` |
| DanishLetters.ReplacementInWord | seven_mio_project/spiders/DavidsenShopSpider.py:134-140 | Letters around a Danish letter are kept: `"Træ"` becomes `"Trae"` |
| UnitLabel.StripUnit | seven_mio_project/spiders/DavidsenShopSpider.py:75 | The stripped label is no longer than the raw label, and it neither starts nor ends with `k`, `r`, `.` or `/`; `StripUnitSpec` characterises it completely |
| UnitLabel.LeadingStripLen | seven_mio_project/spiders/DavidsenShopSpider.py:75 | The leading run of `k`, `r`, `.` and `/` is as long as possible |
| UnitLabel.TrailingStripLen | seven_mio_project/spiders/DavidsenShopSpider.py:75 | The trailing run of `k`, `r`, `.` and `/` is as long as possible |
| UnitLabel.StripUnitSpec | seven_mio_project/spiders/DavidsenShopSpider.py:75 | The stripped label is a contiguous piece of the input. Everything cut away is in the set, and the result neither starts nor ends with a character of the set |
| UnitLabel.StripUnitIdempotent | seven_mio_project/spiders/DavidsenShopSpider.py:75 | Stripping twice is the same as stripping once |
| UnitLabel.StripUnitEatsUnitLetters | seven_mio_project/spiders/DavidsenShopSpider.py:75 | As written, `"kr./stk"` becomes `"st"`, while removing the prefix gives `"stk"` |
| UnitLabel.UnitAfterPrefix | seven_mio_project/spiders/DavidsenShopSpider.py:75 | The intended label is a suffix of the raw label |
| UnitLabel.UnitAfterPrefixRoundTrip | seven_mio_project/spiders/DavidsenShopSpider.py:75 | Removing the prefix `"kr./"` gives back exactly the unit written after it |

## Left out

- The Scrapy side is left out: the spider class, its callbacks, the CSS selectors, the requests and the `yield` of items. `get_price` takes the candidate texts its query would return.
- `get_href_of_element_from_group`, `extract_all_element_group_texts` and `extract_all_lower_case_texts` only read pages. The lookup takes each element's texts as a list, already lower-cased; `.lower()` is not modelled.
- `get_sub_category_urls` is left out: it is selector work on a page.
- `run_spider.py` (launching the crawl) and `export_to_excel.py` (CSV to spreadsheet) are I/O only.
- LocaleNumber.TryToConvertToFloat: exponents (`"1e3"`), `inf` and `nan` are outside the modelled grammar. The model returns `None` for them where Python's `float()` returns a value. Danish price texts do not use these forms.
- LocaleNumber.TryToConvertToFloat: the value is an exact real, so binary rounding and overflow to infinity are not modelled. Non-ASCII decimal digits, which `float()` also accepts, are not modelled either.
- Dimensions.ExtractDimensionsFromFullName: `\d` and `\w` are taken as ASCII. Python's Unicode classes would also take other digits and letters, such as the `æ` of a unit.
- Price.GetPrice: the failing `assert` is an outcome, `AssertionFailed`. Running Python with `-O`, which turns asserts off, is not modelled. The lemmas are stated for any converter (`GetPriceWith`); `GetPrice` passes `try_to_convert_to_float`.
- `parse_sub_category_pages` writes the sub-category URLs to `sub_categories.json`. That file write is left out.

## Findings

| source | as written | input that shows it | evidently intended | confidence | as-written member | corrected member |
|---|---|---|---|---|---|---|
| seven_mio_project/spiders/DavidsenShopSpider.py:75 | `unit.strip("kr./")` removes any of the characters `k`, `r`, `.`, `/` from both ends of the label | `"kr./stk"` becomes `"st"`, and `"kr./stk."` also becomes `"st"` | remove the currency prefix `"kr./"` and keep the unit: `"stk"` | medium, not executed | UnitLabel.StripUnitEatsUnitLetters | UnitLabel.UnitAfterPrefixRoundTrip |
