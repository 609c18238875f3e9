# Shopping assistant core in Dafny

A model of the deterministic core of a conversational shopping assistant
(`app.py`): the text and record transformations between the chat and the
product-search service.

- `extract_price` turns a price field into a non-negative number. The field
  may be missing, a string such as "29,99 €" or "$1,299.99", or a list of
  strings.
- `format_delivery` cuts a delivery text to thirty characters, or gives
  "Standard" when there is none.
- `extract_search_intent` reads the last turn of the conversation. It decides
  whether a product search was announced ("cherchons …", "recherche …",
  "regardons …"), and with which query and budget ("entre 10 et 50").
- The body of `fetch_amazon_products` after the response is decoded:
  - keep the records whose price lies within the budget, and normalise each
    one (price, rating, review count, defaults);
  - sort them by `(rating, reviews_count)` from the highest down, stably;
  - keep the first `num_results`.

Modules, one per file:

| file | module | what it holds |
|---|---|---|
| `values.dfy` | `Values` | `Option`, and `Field`: a response field that is missing, a string or a list of strings, with Python truthiness |
| `text.dfy` | `Text` | the Python string built-ins the core uses: `\s` and `\d` runs, `str.lower`, `str.strip`, `str.split()[0]`, `int` of digits, `float` of a decimal literal |
| `price.dfy` | `Price` | `extract_price` |
| `delivery.dfy` | `Delivery` | `format_delivery` |
| `intent.dfy` | `Intent` | `extract_search_intent`, with the three trigger expressions and the budget expression written out as matchers. They try positions and backtrack in the order Python's `re.search` does. |
| `intent_facts.dfy` | `IntentFacts` | what the extracted intent is: its query, its budget, and the round trip of the announcement format the assistant is told to use |
| `products.dfy` | `Products` | raw and normalised product records, and the normalisation of one record |
| `ranking.dfy` | `Ranking` | the sort of line 142, specified by a reference stable insertion sort. It is proved descending, a permutation, stable, and the only such arrangement. |
| `fetch.dfy` | `Fetch` | the selection loop as a method, then the sort and the cut |

Numbers are exact: prices, ratings and budget bounds are Dafny `real`s or
`nat`s, not IEEE floats.

Two behaviours of the code are worth knowing.

- The price parser turns every comma into a point before it reads the first
  `\d+\.?\d*`. So "1,299.99" reads as 1.299 (`Price.ThousandsSeparatorExample`).
- In the trigger expressions, `\s+` gives white space back to the lazy group.
  So "cherchons  " yields an empty query (`IntentFacts.EmptyQuery`).

## Model

| member | source | states |
|---|---|---|
| Price.ExtractPrice | app.py:68-84 | the price is never negative, and it is 0 for a missing value, "" or an empty list |
| Price.PriceIn | app.py:75-84 | the number read from one string is never negative |
| Price.KeepNumeric | app.py:75 | `re.sub(r'[^\d.,]', '', s)` keeps only digits, points and commas. A text made of them is kept whole, and a text without digits keeps none. KeepNumericDrops and KeepNumericKeeps say which characters survive. |
| Price.KeepNumericAppend | app.py:75 | the filter works character by character: filtering a concatenation filters each part |
| Price.KeepNumericDrops | app.py:75 | a character other than a digit, '.' or ',' is removed wherever it stands |
| Price.KeepNumericKeeps | app.py:75 | a digit, '.' or ',' is kept, in its place between what is kept before and after it |
| Price.CommasToDots | app.py:76 | `replace(',', '.')` keeps the length, turns each comma into a point and leaves every other character in place |
| Price.FirstDigit | app.py:78 | the match starts at the first digit at or after i; there is none exactly when no digit follows |
| Price.NumberEnd | app.py:78 | a match that starts at a digit takes at least that digit and stays within the text |
| Price.PriceOfListIsPriceOfHead | app.py:72-73 | of a non-empty list only the first element is read |
| Price.PriceIgnoresOtherCharacters | app.py:75 | removing any one character other than a digit, '.' or ',', anywhere in the text, leaves the price unchanged |
| Price.PriceOfKeptCharacters | app.py:75 | the price of a text is that of its digits, points and commas alone |
| Price.KeepNumericIdempotent | app.py:75 | filtering the kept characters again keeps them all |
| Price.KeepNumericCommas | app.py:75-76 | dropping the other characters and turning commas into points commute |
| Price.PriceCommaIsPoint | app.py:76 | a comma reads exactly as a point |
| Price.MatchAlwaysParses | app.py:78-83 | the text `\d+\.?\d*` matches always parses as a float, so the `except ValueError` branch never runs |
| Price.DecimalMatch | app.py:78 | in non-digits + digits a + "." + digits b + text not starting with a digit, the first match starts after the non-digits and is exactly "a.b" |
| Price.IntegerMatch | app.py:78 | in non-digits + digits a + text starting with neither a digit nor a point, the first match is exactly a |
| Price.PriceOfDecimal | app.py:75-81 | when the cleaned text is non-digits, a.b and then no digit, the price is the value of a.b, and what follows is ignored |
| Price.PriceOfInteger | app.py:75-81 | when the cleaned text is non-digits, digits a and then neither digit nor point, the price is int(a) |
| Price.PriceWithoutDigits | app.py:78-84 | a text without a digit has price 0 |
| Price.ThousandsSeparatorExample | app.py:75-81 | "1,299.99" reads as 1.299: the comma becomes a point and the second point ends the match |
| Delivery.Prefix | app.py:93 | `s[:n]`: a prefix of s, at most n long, and all of s when s is shorter |
| Delivery.FormatDelivery | app.py:86-93 | "Standard" for a missing value, "" or []; otherwise a prefix of the text (or of the list's first element) of at most 30 characters, and the whole text when it is shorter |
| Delivery.FormatDeliveryIdempotent | app.py:86-93 | formatting a non-empty result again gives it back |
| Delivery.EmptyFirstDelivery | app.py:90-91 | a list whose first element is "" formats as "", not as "Standard" |
| Text.Lower | app.py:199 | `lower()` keeps the length and lowers each character on its own, whatever surrounds it |
| Text.LowerIsLowercase | app.py:199 | `lower()` gives a string that lowering leaves unchanged |
| Text.LowerOfLowercase | app.py:199 | lowering a lower-case string changes nothing |
| Text.Strip | app.py:201 | `strip()` gives a text that neither starts nor ends with white space. It is the slice right after the leading white space, and only white space follows it. |
| Text.StripUnchanged | app.py:201 | a text without white space at either end strips to itself |
| Text.StripWithin | app.py:201 | the stripped group is a piece of the message that lies inside the group |
| Text.FirstToken | app.py:121 | `split()[0]` is absent exactly when the text is all white space. Otherwise it is a non-empty run without white space that only white space precedes and that white space or the end follows. |
| Text.DigitsValue | app.py:127 | `int` of n digits is below 10^n |
| Text.DecimalValue | app.py:81 | the value of a.b lies between int(a) and int(a) + 1 |
| Text.ParseUnsigned | app.py:121 | an unsigned decimal literal ("12", "12.5", "12.", ".5") is accepted, and nothing else. Digits alone read as their integer, and digits, a point and digits read as the value of a.b. |
| Text.ParseFloat | app.py:121 | `float` accepts a token exactly when it is a decimal literal, optionally after one '+' or '-'. A value is negative only after '-'. |
| Text.PointSpans | app.py:81 | in a literal with a point, the leading digit run ends at the point and the digits after it run to the end |
| Text.SignedOf | app.py:121 | a sign in front of an unsigned literal applies to its value |
| Text.ParseSignedInteger | app.py:121 | "+n" and "-n" read as n and -n |
| Text.UnsignedDecimal | app.py:81 | digits, a point and digits form an unsigned literal with the value of a.b |
| Text.ParseSignedDecimal | app.py:121 | "+a.b" and "-a.b" read as the value of a.b and its negation |
| Text.ParseDecimalLiteral | app.py:81 | `float` of "a.b" is the value of a.b |
| Text.ParseIntegerLiteral | app.py:81 | `float` of a digit string is its integer value |
| Intent.StopAfterSpaces | app.py:193 | white space that reaches " entre", " dans", " à" or " pour" is the whole white-space run, and the query ends before it |
| Intent.LazyGroupEnd | app.py:193 | the lazy group, having taken text up to e, ends at or after e and within the message |
| Intent.LazyGroupEndShape | app.py:193 | the lazy group stops at the first point where the end alternation matches and never takes a newline; it fails only at a newline |
| Intent.LazyGroupEndIs | app.py:193 | conversely, a newline-free stretch up to the first end point is exactly what the lazy group takes |
| Intent.GroupAfterSpaces | app.py:193 | when `\s+` holds k characters at j and gives them back one at a time, a group it finds starts after j but within those k characters, and is non-empty |
| Intent.GroupAfterSpacesFinds | app.py:193 | giving back reaches every start the white space allows, so a lazy group at any of them makes the expression succeed |
| Intent.GroupAfterSpacesShape | app.py:193 | however much white space `\s+` gives back, the group it leaves is a lazy group |
| Intent.SpacesStart | app.py:193 | `\s+` starts right after the stem, or one character later at an 's' when the expression allows one |
| Intent.MatchAt | app.py:193-195 | an expression matches only where its stem stands, and its group starts after the stem and is non-empty |
| Intent.MatchAtShape | app.py:193-195 | a match is the stem, the optional 's', at least one white-space character, then a lazy group. Greedy `\s+` makes the group start as late as possible: no later start after the stem, the optional 's' and white space only begins a lazy group (`LatestStart`). |
| Intent.GroupAfterSpacesLatest | app.py:193 | `\s+` gives back white space only as far as it must: no position after the group's start, within the white space it first took, begins a lazy group |
| Intent.MatchAtOfShape | app.py:193-195 | conversely, the stem, the optional 's', white space and a lazy group make the expression match there |
| Intent.MatchAtAfterS | app.py:193 | with an optional 's' after the stem, white space and a lazy group after that 's' make the expression match |
| Intent.MatchAtWithoutS | app.py:193-195 | white space and a lazy group right after the stem make the expression match |
| Intent.SearchFrom | app.py:199 | `re.search` finds the leftmost position that matches; it finds nothing exactly when no position matches |
| Intent.Search | app.py:199 | a hit of `re.search` is a match at its position, and the expression matches at no earlier position |
| Intent.FirstTrigger | app.py:198-200 | the expressions are tried in list order and the first that matches wins; there is no hit exactly when none matches |
| Intent.ConnectorLength | app.py:204 | the connector `(?:et\|à\|-)` takes at most two characters, within the message |
| Intent.AmountAt | app.py:204 | `(\d+)` ends after its start and within the message |
| Intent.ConnectedAmount | app.py:204 | `\s*(?:et\|à\|-)\s*(\d+)` needs at least a connector and a digit; ConnectedRun and ConnectedAmountOf state what it reads, in both directions |
| Intent.BudgetAfter | app.py:204 | `\s+(\d+)\s*(?:et\|à\|-)\s*(\d+)` starts with white space and takes at least four characters |
| Intent.BudgetAt | app.py:204 | the expression matches only at "entre" and needs at least nine characters ("entre 1-2"). PhraseOfBudget and BudgetOfPhrase state what it reads, in both directions. |
| Intent.AmountOfDigits | app.py:204 | a digit run that no digit follows is read whole, as its integer value |
| Intent.BudgetSearch | app.py:204 | a budget the search returns is one the expression reads at some position of the message |
| Intent.BudgetSearchFirst | app.py:204 | the budget search returns the budget at the first position where the expression matches |
| Intent.BudgetSearchNone | app.py:204 | the budget search finds nothing exactly when the expression matches nowhere |
| Intent.AmountRun | app.py:204 | what `(\d+)` reads is a whole digit run, no digit follows it, and the amount is the integer it spells |
| Intent.ConnectedRun | app.py:204 | what `\s*(?:et\|à\|-)\s*(\d+)` reads is white space, a connector, white space and a whole digit run, and the amount is that run's integer |
| Intent.PhraseOfBudget | app.py:204 | conversely to BudgetOfPhrase, wherever the expression matches, the text there is "entre", white space, digits, a connector between optional white space, and digits. Each digit run is whole, and the bounds are the integers the two runs spell. |
| Intent.BudgetSearchSkip | app.py:204 | positions without "entre" are passed over |
| Intent.BudgetOfPhrase | app.py:204-206 | "entre" + white space + digits a + optional white space + "et", "à" or "-" + optional white space + digits b, with no digit after, reads back as (int(a), int(b)) |
| Intent.LastMessage | app.py:189 | the content of the last turn, or "" when it has none |
| Intent.ExtractSearchIntent | app.py:183-214 | no intent for an empty history; otherwise an intent exactly when one of the three expressions matches the lowered last message |
| Intent.IntentOf | app.py:197-214 | on the lowered message, an intent exactly when one of the expressions matches |
| IntentFacts.SearchNeedsStem | app.py:193-195 | an expression matches only where its stem ("cherchon", "recherche", "regardon") occurs |
| IntentFacts.NoTriggerNoIntent | app.py:198-214 | no stem in the lowered last message means no intent |
| IntentFacts.FirstTriggerShape | app.py:198-200 | the hit the loop returns comes from the first expression that matches anywhere, at its leftmost position. The stem and white space precede its group, and the group is the latest-starting lazy group there. |
| IntentFacts.QueryShape | app.py:198-201 | the query is the stripped lazy group of the first expression that matches, at its leftmost match, starting as late as the white space after the stem allows |
| IntentFacts.QueryPiece | app.py:199-201 | the stripped group of a lowered message is lower case, has no newline, and occurs in the message |
| IntentFacts.QueryIsClean | app.py:199-201 | the query is lower case, has no white space at either end and no newline, and occurs in the lowered last message |
| IntentFacts.IntentBudgetFound | app.py:204-206 | the bounds come from the leftmost budget phrase anywhere in the message, before or after the trigger |
| IntentFacts.IntentBudgetPhrase | app.py:204-206 | the bounds are the integers spelled by the two digit runs of the leftmost budget phrase in the lowered last message |
| IntentFacts.IntentBudgetDefault | app.py:204-206 | with no budget phrase the bounds are 0 and 1000 |
| IntentFacts.AnnouncementRoundTrip | app.py:450 | "cherchons [term] entre [min] et [max]", the format the assistant is told to use, reads back through extract_search_intent as (term, min, max), whoever wrote the turn |
| IntentFacts.AnnouncementIntent | app.py:197-214 | the announcement format, read on the lowered message, gives the term and the two amounts |
| IntentFacts.CapitalisedAnnouncement | app.py:199 | "cherchons X entre 10 et 50" gives the query "x" and the bounds 10 and 50 |
| IntentFacts.AccentedAnnouncement | app.py:199 | "Cherchons Écran 4K entre 100 et 300" gives the query "écran 4k" and the bounds 100 and 300 |
| IntentFacts.AccentedTerm | app.py:193-195 | "écran 4k" is a term the announcement format carries unchanged |
| IntentFacts.BoundsNotOrdered | app.py:204-211 | "cherchons tv entre 50 et 10" gives the bounds 50 and 10: nothing orders them |
| IntentFacts.EmptyQuery | app.py:193 | "cherchons  " announces a search with the empty query and the default bounds |
| Products.PriceStrFirst | app.py:115 | a truthy `price_str` decides the price, and `price` is then never read |
| Products.PriceFallsBack | app.py:115 | without a truthy `price_str` the price is that of `price`. The default "0" for a missing `price` reads as 0, as a missing value does. |
| Products.PriceWithoutAnyDigit | app.py:115 | when neither field holds a digit the price is 0 |
| Products.PriceOf | app.py:115 | the price read from a record is never negative |
| Products.RatingOf | app.py:118-123 | a missing rating is 0, a number is kept, and an all-white-space text is 0 |
| Products.RatingOfDecimalText | app.py:119-121 | a rating text whose first word is a decimal literal, such as "4.5" or "4.5 sur 5", reads as that literal |
| Products.RatingOfIntegerText | app.py:119-121 | a rating text whose first word is a whole number, such as "4" or "4 sur 5", reads as that number |
| Products.RatingOfNonNumber | app.py:120-123 | a rating text whose first word is not a number, such as "N/A", reads as 0 |
| Products.KeepDigits | app.py:127 | `re.sub(r'[^\d]', '', s)` keeps only digits, is no longer than s, and keeps an all-digit text whole. KeepDigitsDrops and KeepDigitsKeeps say which characters survive. |
| Products.KeepDigitsDrops | app.py:127 | a character other than a digit is removed wherever it stands |
| Products.KeepDigitsKeeps | app.py:127 | a digit is kept, in its place between what is kept before and after it |
| Products.KeepDigitsNone | app.py:127 | a text without digits keeps nothing |
| Products.KeepDigitsAppend | app.py:127 | keeping the digits of a concatenation keeps those of each part |
| Products.DigitsValueAppend | app.py:127 | int of x + y is int(x) · 10^len(y) + int(y) |
| Products.ReviewsOf | app.py:125-127 | a missing count is 0, an integer is kept, and a text gives a non-negative number |
| Products.ReviewsOfGrouped | app.py:127 | a grouped count such as "1,234" or "1 234", with any separator that holds no digit, reads as the number its digits spell |
| Products.ReviewsWithoutDigits | app.py:127 | a count text without digits reads as 0 |
| Products.LabelOf | app.py:132 | a price that is not negative is labelled "Prix non disponible" exactly when it is 0. A price label always carries the price, and only a positive one. |
| Products.Normalise | app.py:129-140 | the record appended for a product. It has the product's price, rating and review count. Its label is "Prix non disponible" exactly when the price is 0, and is otherwise the price. Title, description, link, image, delivery and prime take the product's values or their defaults. |
| Products.UnpricedPassesDefaultFilter | app.py:115-132 | a record whose price cannot be read passes the filter [0, max] and is labelled "Prix non disponible" |
| Ranking.RankSort | app.py:142 | the sorted list has as many records as the input. RankSortPermutes, RankSortDescending, RankSortStable and RankSortUnique state what it is. |
| Ranking.InsertPermutes | app.py:142 | inserting adds the record and nothing else |
| Ranking.RankSortPermutes | app.py:142 | the sorted list holds the same records, each as often |
| Ranking.InsertDescending | app.py:142 | inserting into a non-increasing list keeps it non-increasing |
| Ranking.RankSortDescending | app.py:142 | the sorted list is non-increasing in (rating, reviews_count) |
| Ranking.WithKeyInsert | app.py:142 | inserting a record puts it before the records with its key |
| Ranking.RankSortStable | app.py:142 | records with equal keys keep their input order |
| Ranking.DescendingDetermined | app.py:142 | two non-increasing lists with the same records of each key, in the same order, are equal |
| Ranking.RankSortUnique | app.py:142 | any non-increasing arrangement that keeps each key's records in input order is the reference sort, so the reference sort is what the stable `sort(reverse=True)` gives |
| Fetch.Selected | app.py:114-140 | the selected list is no longer than the input, and every price in it is within the budget |
| Fetch.SelectedRecords | app.py:114-140 | the selected records are exactly the normalised forms of the input records within the budget |
| Fetch.SelectInBudget | app.py:114-140 | the loop builds the selected list |
| Fetch.Truncate | app.py:143 | `xs[:n]` is a prefix of xs, of length min(n, len) for n ≥ 0 and max(len + n, 0) for n < 0 |
| Fetch.WithKeyPrefix | app.py:143 | cutting a list keeps a prefix of each key's records |
| Fetch.TopRanked | app.py:142-143 | the cut sorted list is within the budget and non-increasing. It keeps a prefix of each key's records in input order, and holds no record that was not in the input. |
| Fetch.FetchProducts | app.py:114-143 | the result is the first num_results records of the sorted selection. Every price is within [min_price, max_price], there are at most num_results records, and they are non-increasing in (rating, reviews_count). Equal keys keep input order, and every record comes from the selection. |

## Left out

- The HTTP request to the product-search service, with its parameters, key, timeout and status check (lines 97-112). Also left out: the decoding of its JSON, the `st.cache_data` cache, and the error branch that shows a warning and returns [] (lines 145-147). These are network I/O and framework code. The model starts from the decoded "organic_results".
- The Streamlit interface and session state, the calls to the chat-completion service (`chat_with_assistant`, `analyze_product_conversational`, `update_user_context`), and the configuration loading. These are UI, foreign calls and environment access.
- Floating point. Prices, ratings and bounds are exact numbers. `float()` of a long decimal is not rounded, and `min_price`/`max_price` are natural numbers rather than floats.
- Products.LabelOf: the `:.2f` rendering of the price label is not modelled. The label carries the amount itself.
- Text.ParseFloat: `float()` in Python also accepts surrounding white space, exponents, "inf", "nan", underscores and non-ASCII digits. The model accepts signed decimal literals only, and reads the rest as not a number. The price match and the rating token contain none of the others except in a rating text such as "1e3", which the model reads as 0 where Python reads 1000.
- `\d` and `int()` also accept non-ASCII decimal digits in Python. The model's digits are ASCII '0'-'9'.
- `str.lower()` is modelled for ASCII and the Latin-1 capitals only. Other scripts, and characters that lower to more than one character, are left unchanged.
- JSON values the model's field types do not cover are left out:
  - a price, rating or count given as JSON null;
  - a price given as a JSON number, which `str()` would render;
  - list elements that are not strings;
  - a delivery value that is a JSON object.
  A missing key and a null value are both `Absent` or `NoNumber`. So a null delivery is stored as "" where Python stores None, and a null rating or review count reads as 0 where Python keeps None. That None matters only in the sort of line 142, which compares the keys `(rating, reviews_count)` as tuples:
  - comparing None with a number raises TypeError, and the except branch of lines 145-147 then makes the whole call return [];
  - the sort must make such a comparison once the selected records hold both a null rating and a numeric one, or two records with equal ratings (two nulls included), one with a null count and one with a numeric count;
  - a single record, or nulls that only ever meet nulls, sort without error.
  Where Python returns [] this way, the model returns the records ranked with 0 in place of each null.
- Products.Normalise: a JSON null in "title", "link", "snippet", "image" or "prime" cannot be represented. Each of these fields is present with a value or missing. Python stores None for a null, where the model's record holds the default.
- The in-place `products.sort(...)` is a library call. It is specified by the reference function `Ranking.RankSort` on sequences, proved to be the only stable descending arrangement, not by an array algorithm.
- Fetch.FetchProducts: the bound on the number of results is stated for `num_results ≥ 0` only. For a negative value Python's slice drops records from the end, which `Fetch.Truncate` models, and no bound by `num_results` holds.
- IntentFacts.AnnouncementRoundTrip is proved for the search terms `IntentFacts.SearchTerm` describes: no white space at either end, no '.' and no newline, no "entre" anywhere, and no "entre", "dans", "à" or "pour" right after white space inside the term. Other terms can end the query early or move the budget, as the expressions dictate.
- IntentFacts.AnnouncementIntent carries the same restriction on the search term as IntentFacts.AnnouncementRoundTrip, which it serves.
