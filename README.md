# dolar_scraper in Dafny

A model of how the dolar_scraper repository reads Argentine dollar
exchange rates from a dolarito.ar page that has already been parsed into a
tree. The model covers three pieces of code:

- The `scraper/` package. Its shared price parser is `DollarRate._parse_price`.
  - `_parse_price` takes the first price `div` with the side's class, then the
    first `p` inside it with the side's class.
  - It deletes `$` and `.` from the text, turns `,` into `.`, strips the text
    and converts it to a number.
  - Each rate class (`OficialDollar`, `BlueDollar`, `MEPDollar`) builds its
    rate from that parser.
  - `DollarFactory.create` picks the class from a fixed table.
- `dolar_scraper/scraper.py`. `DolaritoScraper` finds one `li` per dollar type
  by id and reads both prices with its own copy of the parser.
- `scraper.py`, the older `DolarScraper`. For each label div of a quotation
  block, it searches forward in document order for the value that follows the
  label. It stores a quote (two strings) in its `data` dictionary only when
  both prices were read.

## Modules

- `Html` (html.dfy) models the BeautifulSoup behaviour the code relies on.
  - A node is text or an element with a tag, its class tokens, an optional id
    and its children.
  - `find` returns the first proper descendant in document order.
  - `class_` with a multi-word string matches only the whole class attribute.
  - `get_text` concatenates the descendant text.
  - A tag is always truthy, so `if not x` only tests for `None`.
- `PriceText` (price_text.dfy) models the cleaning and the conversion.
  - The replacements and Python's `str.strip`, with its full whitespace set.
  - `float` as a partial function to an exact `real`, over the grammar: an
    optional sign, then optional digits, at most one `.`, and optional digits
    after it, with at least one digit in all (so `12.` and `.5` convert). The
    `ValueError` case is `None`.
- `Base` (base.dfy) models `DollarRate` and `_parse_price` of
  scraper/dollars/base.py.
- `Oficial`, `Blue` and `Mep` model the three rate classes.
- `Factory` models `DollarFactory`; `InvalidDollarType` is an error value.
- `Dolarito` models dolar_scraper/scraper.py.
  - It has no own `DollarRate` type. That file's `DollarRate` has the same
    three fields as the one in `Base`, so `Base.DollarRate` represents it.
- `LegacyScraper` models scraper.py.
  - `DolarScraper` is a class. Its `data` field is a `map` that the methods
    reassign.
  - `ParseQuotationBlock` keeps the source's loop over the labels. Its
    invariant ties the two price locals to the specification fold `Scan`.
  - The page is `Descendants(soup)`, the document-order list of all its nodes.
    `find_next` is the first match at a later position in that list.

Nothing the code does over the network is modelled. `fetch_html`,
`_fetch_page` and `get_data`'s download are replaced by a page passed in
already parsed.

## Model

| member | source | states |
|---|---|---|
| Html.Find | scraper/dollars/base.py:28 | `find` returns a matching proper descendant, and returns `None` exactly when no descendant matches |
| Html.FindIsFirstInPreorder | scraper/dollars/base.py:28-32 | `find` is the first match of the document-order descendant list, never a later one |
| Html.FindInAppendAfterHit | scraper/dollars/base.py:28 | markup added after a forest that already holds a match does not change what `find` returns |
| Html.FindInAppendAfterMiss | scraper/dollars/base.py:28 | after a forest with no match, `find` returns what the added markup alone gives |
| Html.FirstIndex | scraper.py:43 | the position of the first matching element of the page: it matches, and nothing before it does |
| Html.ClassMatches | scraper/dollars/base.py:28 | the `class_` test; its partner lemmas below state what it accepts |
| Html.MultiWordMatchesWholeAttribute | scraper/dollars/base.py:28 | a filter containing a space (such as "chakra-text css-113t1jt") matches exactly the whole class attribute joined by single spaces, never one token |
| Html.SingleWordMatchesToken | scraper/dollars/base.py:28 | a filter without a space matches exactly when it is one of the element's class tokens |
| Html.FilterKeepsMatches | scraper.py:51 | `find_all` keeps exactly the matching elements of the list |
| Html.FindAll | scraper.py:51 | `find_all` returns exactly the matching descendants of the element |
| Html.GetText | scraper/dollars/base.py:36 | `get_text`; its partner `Html.GetTextIsTextRuns` states what it returns |
| Html.GetTextIsTextRuns | scraper/dollars/base.py:36 | `get_text` is the concatenation of the text nodes below the element, in document order |
| Html.PreorderSubtreeIsContiguous | scraper.py:51-54 | in document order an element's descendants directly follow it, so a block's labels are a contiguous range of positions |
| PriceText.Strip | scraper/dollars/base.py:37 | `strip` never lengthens the text, and neither end of its result is whitespace |
| PriceText.StripIsTrimmedSlice | scraper/dollars/base.py:37 | the stripped text is a slice of the input, and everything cut from either end is whitespace |
| PriceText.StripIdentity | scraper/dollars/base.py:37 | `strip` leaves text unchanged when neither end is whitespace |
| PriceText.Scrub | scraper/dollars/base.py:37 | after the three replacements no `$` and no `,` remain, and there is exactly one `.` per `,` of the raw text |
| PriceText.Clean | scraper/dollars/base.py:37 | the cleaned text has no `$` and no `,`, and has exactly as many `.` as the raw text had `,` |
| PriceText.ScrubPlain | scraper/dollars/base.py:37 | text with none of `$`, `.` and `,` passes the three replacements unchanged |
| PriceText.ScrubAppend | scraper/dollars/base.py:37 | the replacements act on each part of a concatenation separately |
| PriceText.ParseFloat | scraper/dollars/base.py:37-41 | `float` succeeds exactly on an optionally signed unsigned decimal, and fails (`None`) on anything else |
| PriceText.TwoDotsIsNotANumber | scraper/dollars/base.py:37-41 | text with two or more decimal points does not convert |
| PriceText.ManyCommasIsNotANumber | scraper/dollars/base.py:37-41 | raw text with two or more commas (such as "1,2,3") does not convert after cleaning |
| PriceText.NoDigitIsNotANumber | scraper/dollars/base.py:37-41 | text without a digit (such as "invalid") does not convert |
| PriceText.ParseDigitsDotDigits | scraper/dollars/base.py:37 | digits, a point and digits convert to the exact decimal value those digits denote |
| PriceText.GroupedIntegerRoundTrip | scraper/dollars/base.py:37 | an integer written with `.` between groups of three digits cleans and converts back to the same integer |
| PriceText.LocalizedRoundTrip | scraper/dollars/base.py:37 | a price written as "$", thousands grouped with `.`, a `,` and two decimals cleans and converts back to its exact value |
| PriceText.CleanLocalized | scraper/dollars/base.py:37 | cleaning such a price leaves the ungrouped digits, one `.` and the two decimals |
| Base.PriceSelector | scraper/dollars/base.py:25-26 | `is_buy` selects exactly one of two fixed pairs of class markers |
| Base.ParsePrice | scraper/dollars/base.py:22-41 | no selected div below the container gives `None`; a number is returned only when both lookups succeed |
| Base.ParsePriceReadsOnlyPriceElement | scraper/dollars/base.py:28-37 | the result is a function of the text of the located `p` alone; without that element it is `None` |
| Base.DivWithoutPriceGivesNone | scraper/dollars/base.py:32-34 | a selected div with no selected `p` below it gives `None` |
| Base.UnparseableGivesNone | scraper/dollars/base.py:37-41 | located text that cleans to something `float` rejects gives `None`, not an error |
| Base.ManyCommasGiveNone | scraper/dollars/base.py:37-41 | in particular located text with two or more commas gives `None` |
| Base.LaterMarkupIgnored | scraper/dollars/base.py:28 | once the selected div is found, later markup in the container has no effect |
| Base.UnrelatedMarkupIgnored | scraper/dollars/base.py:28 | added markup without a selected div has no effect, whether or not the container already held one |
| Base.LocalizedPriceParses | scraper/dollars/base.py:36-37 | a located price written the page's way reads back as its exact value |
| Base.TwoCellLookup | scraper/dollars/base.py:25-32 | in a container with a buy cell and a sell cell, each side finds its own cell's `p` |
| Base.OtherCellHasNoDiv | scraper/dollars/base.py:25-28 | a price cell of one side holds no div the other side looks for |
| Base.ExamplePrices | scraper/dollars/base.py:37 | "1.140" gives 1140 and "$ 350,50 " gives 350.50 |
| Base.ExampleDecimal | scraper/dollars/base.py:37 | "$ 350,50 " cleans to "350.50", which converts to 350.5 |
| Base.ExampleWord | scraper/dollars/base.py:37-41 | a cell reading "invalid" gives `None` |
| Base.ExampleCommas | scraper/dollars/base.py:37-41 | a cell reading "1,2,3" gives `None` |
| Oficial.New | scraper/dollars/oficial.py:8-9 | the name is always "oficial", and buy and sell are stored as given |
| Oficial.ExtractFromHtml | scraper/dollars/oficial.py:12-15 | buy is the parser's buy price and sell its sell price, each read on its own |
| Oficial.MissingBuyMarkerKeepsSell | scraper/dollars/oficial.py:13-15 | without a buy div, buy is `None` and sell is still read |
| Oficial.LocalizedQuoteReadsBack | scraper/dollars/oficial.py:12-15 | a container with a buy cell followed by a sell cell, both localized prices, extracts to exactly those two values |
| Blue.New | scraper/dollars/blue.py:7-8 | the name is always "blue", and buy and sell are stored as given |
| Blue.ExtractFromHtml | scraper/dollars/blue.py:10-15 | buy is the parser's buy price and sell its sell price, each read on its own |
| Blue.MissingBuyMarkerKeepsSell | scraper/dollars/blue.py:13-15 | without a buy div, buy is `None` and sell is still read |
| Blue.LocalizedQuoteReadsBack | scraper/dollars/blue.py:10-15 | a container with a buy cell followed by a sell cell, both localized prices, extracts to exactly those two values |
| Mep.New | scraper/dollars/mep.py:9-10 | the name is always "mep", buy is always `None`, and sell is stored as given |
| Mep.ExtractFromHtml | scraper/dollars/mep.py:12-15 | only the sell price is read; buy is `None` |
| Mep.BuyMarkupIgnored | scraper/dollars/mep.py:13-15 | a buy cell added to the container changes nothing |
| Mep.LocalizedSellReadsBack | scraper/dollars/mep.py:12-15 | a localized sell price extracts to exactly its value |
| Factory.ExtractFromHtml | scraper/factory.py:39 | the MEP class never yields a buy price |
| Factory.NewWithBoth | scraper/factory.py:37 | the two-price classes store both given prices |
| Factory.DollarClassesTable | scraper/factory.py:15-19 | the table has exactly the keys "oficial", "informal" and "mep", mapped to three different classes, "informal" to the blue class |
| Factory.Create | scraper/factory.py:15-39 | an error with message "Invalid dollar type: ..." exactly for types outside the table; the name is "oficial", "blue" or "mep", never "informal"; no container gives no prices; MEP never has a buy price |
| Factory.CreateDispatches | scraper/factory.py:15-39 | with a container, "oficial", "informal" and "mep" are read by the oficial, blue and MEP classes |
| Factory.AcceptedTypes | scraper/factory.py:32-34 | exactly the three table keys are accepted |
| Factory.CreateReadsPrices | scraper/factory.py:37-39 | with a container, sell is the parser's sell price, and buy is its buy price except for MEP |
| Dolarito.FindContainer | dolar_scraper/scraper.py:69 | the container is an `li` with id exactly "quotation-<type>-desktop", absent only when no such element exists |
| Dolarito.ContainerIsFirstInDocument | dolar_scraper/scraper.py:69 | the container is the first such `li` in document order |
| Dolarito.ParsePriceAsWritten | dolar_scraper/scraper.py:81-110 | as written: raises `NameError` exactly when the located text does not convert; otherwise agrees with the shared parser |
| Dolarito.ExtractRateAsWritten | dolar_scraper/scraper.py:65-78 | as written: a missing container raises `NameError`; a result always carries the requested name |
| Dolarito.GetRatesAsWritten | dolar_scraper/scraper.py:113-125 | as written: when it returns, the keys are exactly "oficial", "informal" and "mep" |
| Dolarito.ExtractRate | dolar_scraper/scraper.py:65-78 | the name is the requested type; a missing container gives no prices; otherwise each side comes from the parser |
| Dolarito.GetRates | dolar_scraper/scraper.py:121-125 | the keys are exactly "oficial", "informal" and "mep", and each rate's name is its key |
| Dolarito.ExtractRateAgrees | dolar_scraper/scraper.py:65-110 | whenever the code as written returns, it returns the intended rate; it raises exactly when the container is missing or a price does not convert |
| Dolarito.GetRatesAgrees | dolar_scraper/scraper.py:121-125 | `get_rates` as written returns the intended map, or raises exactly when one of the three extractions raises |
| Dolarito.MissingContainerRaises | dolar_scraper/scraper.py:70-72 | an empty page raises `NameError` as written, while the intended result is a rate without prices |
| Dolarito.UnconvertibleTextRaises | dolar_scraper/scraper.py:103-110 | unconvertible located text raises as written, while the intended result is `None` |
| Dolarito.ManyCommasRaise | dolar_scraper/scraper.py:103-110 | in particular located text with two or more commas raises as written |
| Dolarito.UnparseablePriceRaises | dolar_scraper/scraper.py:103-110 | the text "invalid" raises as written, while the intended result is `None` |
| LegacyScraper.ContainsIsSubstring | scraper.py:53-57 | the `in` test holds exactly when the marker occurs at some position of the label's text |
| LegacyScraper.FindNext | scraper.py:54-58 | `find_next` returns the first matching position after the label's, anywhere later in the page, or `None` when there is none |
| LegacyScraper.MatchingIndices | scraper.py:51 | the block's labels: matching positions in the range, ascending |
| LegacyScraper.MatchingIndicesComplete | scraper.py:51 | every matching position in the range is among the labels |
| LegacyScraper.LabelsAreFindAll | scraper.py:51 | the positions the loop visits hold exactly `block.find_all(...)`, in document order |
| LegacyScraper.BlockIsFind | scraper.py:43 | the block is the page's first `ul` with that id, as `soup.find` returns it |
| LegacyScraper.ValueAfter | scraper.py:54-60 | no following value div gives `None`; when the next value div holds the side's `p`, the value is that `p`'s stripped text, and otherwise `None` |
| LegacyScraper.Step | scraper.py:52-60 | a sell label sets only the sell price, a buy label only the buy price, any other label nothing |
| LegacyScraper.StepSell | scraper.py:52-56 | after one label the sell price is that label's value when it carries the sell marker, and the old sell price otherwise |
| LegacyScraper.StepBuy | scraper.py:52-60 | after one label the buy price is that label's value when it carries the buy marker and not the sell marker, and the old buy price otherwise |
| LegacyScraper.Scan | scraper.py:48-60 | the prices after the loop are absent or stripped of surrounding whitespace |
| LegacyScraper.BothMarkersSetSellOnly | scraper.py:53-60 | a label with both markers sets the sell price and leaves the buy price alone |
| LegacyScraper.LastSellLabelWins | scraper.py:52-56 | the sell price is the value of the last sell label; later labels of other kinds do not touch it |
| LegacyScraper.NoSellLabel | scraper.py:49-56 | without a sell label the sell price stays `None` |
| LegacyScraper.LastBuyLabelWins | scraper.py:52-60 | the buy price is the value of the last buy label, one whose text lacks the sell marker |
| LegacyScraper.NoBuyLabel | scraper.py:48-60 | without a buy label the buy price stays `None` |
| LegacyScraper.BlockResult | scraper.py:43-65 | no block means no quote; a quote is recorded only with two non-empty prices, both kept as stripped text |
| LegacyScraper.BlockRecords | scraper.py:43-65 | with the block found, a quote is recorded exactly when both prices the loop ends with are non-empty, and it holds those two texts |
| LegacyScraper.RecordedQuoteIsLastLabels | scraper.py:48-65 | the recorded `compra` is the value after the block's last buy label and `venta` the value after its last sell label; a quote is recorded exactly when both are non-empty |
| LegacyScraper.BlockUpdate | scraper.py:62-65 | one block changes at most the entry `name`, which gets the recorded quote when there is one; with none, `data` is unchanged |
| LegacyScraper.NoBlockNoChange | scraper.py:43-46 | a page without the block leaves `data` unchanged |
| LegacyScraper.OnlyNameChanges | scraper.py:62-65 | one block touches at most the entry `name`, which either keeps its old value or gets two non-empty prices |
| LegacyScraper.ParseDataUpdate | scraper.py:67-77 | no entry is removed, the only keys added are the three names, and every other entry keeps its value |
| LegacyScraper.EntriesAccumulate | scraper.py:67-77 | `parse_data` never removes an entry: it can only add or replace "Official Dollar", "Blue Dollar" and "MEP Dollar" |
| LegacyScraper.DolarScraper.constructor | scraper.py:13-21 | the URL is stored and `data` starts empty |
| LegacyScraper.DolarScraper.ParseQuotationBlock | scraper.py:34-65 | the loop's invariant ties the two locals to the fold over the labels seen so far; the new `data` is the block's update of the old one |
| LegacyScraper.DolarScraper.ParseData | scraper.py:67-77 | the three blocks are applied in the order oficial, informal, MEP |
| LegacyScraper.DolarScraper.GetData | scraper.py:79-88 | returns the dictionary after `parse_data`, without clearing it first |

## Left out

- Network access is left out. `fetch_html`, `_fetch_page`, the `requests` session, its headers and the timeout are not modelled. The page is a parameter, already parsed.
- HTML parsing of the raw text is left out. `BeautifulSoup(html, 'html.parser')` is not modelled: `ParseData` and `GetData` take the tree.
- Logging is a no-op wherever `logger` is defined. scraper/config/logger.py and utils/logger are not part of this model. Where `logger` is undefined, its use is modelled as the `NameError` it raises.
- scraper/scraper.py `get_rates` is not modelled. It is glue around the fetch and three factory calls.
- main.py is not modelled. It only formats and prints.
- `DollarRate.__str__` and `display_data` are not modelled. They only format text for output.
- The exception classes of scraper/exceptions.py are not modelled as classes. `InvalidDollarType` is the error value `Factory.InvalidDollarType`.
- `Factory.NewWithBoth` requires a class other than MEP. The source would raise `TypeError` for MEP, and the table never lets a MEP type reach that call.
- PriceText.ParseFloat: prices are exact decimals (`real`), not IEEE doubles.
- PriceText.ParseFloat: Python's other accepted forms give `None` here, unlike in Python. These forms are exponents, "inf"/"nan", underscores between digits and non-ASCII digits.
- BeautifulSoup is modelled only as far as the code uses it. Attribute matching beyond tags with a class string or an id, other parsers' tree repairs, and `find` on a text node (a Python string method) are not modelled.
- BeautifulSoup's whitespace splitting of class attributes is not applied: an element's classes are given already split into tokens.
- Element identity is not modelled. The legacy scraper refers to a page's elements by their position in document order, since two elements with the same content are equal values.
- tests/test_scraper.py is not followed. It expects results the code does not produce, for example 1.140 for the text "1.140" and the key "official".
- The legacy scraper reads the sell price from a `p` with class `css-113t1jt` and the buy price from `css-12u0t8b`. scraper/dollars/base.py uses the opposite assignment. Each file is modelled as written.

## Findings

| source | as written | input that shows it | evidently intended | confidence | as-written member | corrected member |
|---|---|---|---|---|---|---|
| dolar_scraper/scraper.py:70-72 | the missing-container branch calls `logger.warning`, but the module never defines or imports `logger` (lines 1-7), so it raises `NameError` | a page with no `li` of id "quotation-oficial-desktop", such as an empty document | return `DollarRate(dollar_type, None, None)` | not executed | Dolarito.MissingContainerRaises | Dolarito.ExtractRate |
| dolar_scraper/scraper.py:108-110 | the `except` branch for text that does not convert calls `logger.error`, which raises `NameError` instead of returning `None` | a price `p` whose text is "invalid" | return `None` | not executed | Dolarito.UnparseablePriceRaises | Dolarito.ExtractRate |
