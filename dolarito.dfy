/**
 * dolar_scraper/scraper.py: `DolaritoScraper`, which reads the three rates
 * from a page of dolarito.ar already parsed into a tree. It keeps its own
 * copy of the price parser and its own `DollarRate` record, which has the
 * same three fields as the one in `Base` and is represented by it.
 *
 * The module never defines the name `logger`, so both places that log
 * instead raise `NameError`. `ParsePriceAsWritten`, `ExtractRateAsWritten`
 * and `GetRatesAsWritten` model the code as written; `ExtractRate` and
 * `GetRates` model it with the logging calls as no-ops, which is what the
 * surrounding code and its return values evidently intend.
 */
module Dolarito {
  import opened Wrappers
  import opened Html
  import Base
  import PriceText

  /** The exception the undefined name raises. */
  datatype RaisedError = NameError(name: string)

  /** The error raised wherever the module logs. */
  const LoggerMissing: RaisedError := NameError("logger")

  /** The types `get_rates` asks for, in the order it asks for them. */
  const DollarTypes: seq<string> := ["oficial", "informal", "mep"]

  function ContainerId(dollarType: string): string
  {
    "quotation-" + dollarType + "-desktop"
  }

  function ContainerQuery(dollarType: string): Query
  {
    ById("li", ContainerId(dollarType))
  }

  /** `soup.find('li', id=f"quotation-{dollar_type}-desktop")`. */
  function FindContainer(soup: Node, dollarType: string): (r: Option<Node>)
    ensures r.Some? ==> r.value.Elem? && r.value.tag == "li" && r.value.id == Some(ContainerId(dollarType))
    ensures r.None? <==> forall x :: x in Descendants(soup) ==> !Matches(x, ContainerQuery(dollarType))
  {
    Find(soup, ContainerQuery(dollarType))
  }

  /** The container is the first `li` of the page, in document order, with exactly that id. */
  lemma ContainerIsFirstInDocument(soup: Node, dollarType: string)
    ensures FindContainer(soup, dollarType) == FirstOf(Descendants(soup), ContainerQuery(dollarType))
  {
    FindIsFirstInPreorder(soup, ContainerQuery(dollarType));
  }

  // ---------------------------------------------------------------------
  // As written
  // ---------------------------------------------------------------------

  /**
   * `_parse_price` as written: the same lookups and cleaning as
   * `Base.ParsePrice`, but text that does not convert reaches the `except`
   * branch, whose `logger.error` raises.
   */
  function ParsePriceAsWritten(container: Node, isBuy: bool): (r: Result<Option<real>, RaisedError>)
    ensures r.Err? <==>
      Base.PriceElement(container, isBuy).Some? &&
      PriceText.ParseFloat(PriceText.Clean(GetText(Base.PriceElement(container, isBuy).value))).None?
    ensures r.Err? ==> r.error == LoggerMissing
    ensures r.Ok? ==> r.value == Base.ParsePrice(container, isBuy)
  {
    match Find(container, Base.DivQuery(isBuy))
    case None => Ok(None)
    case Some(priceDiv) =>
      match Find(priceDiv, Base.PQuery(isBuy))
      case None => Ok(None)
      case Some(priceElement) =>
        match PriceText.ParseFloat(PriceText.Clean(GetText(priceElement)))
        case None => Err(LoggerMissing)
        case Some(v) => Ok(Some(v))
  }

  /**
   * `_extract_rate` as written: a missing container reaches `logger.warning`
   * and raises; otherwise buy is read first, then sell, and the first
   * exception propagates.
   */
  function ExtractRateAsWritten(soup: Node, dollarType: string): (r: Result<Base.DollarRate, RaisedError>)
    ensures FindContainer(soup, dollarType).None? ==> r == Err(LoggerMissing)
    ensures r.Err? ==> r.error == LoggerMissing
    ensures r.Ok? ==> r.value.name == dollarType
  {
    match FindContainer(soup, dollarType)
    case None => Err(LoggerMissing)
    case Some(container) =>
      match ParsePriceAsWritten(container, true)
      case Err(e) => Err(e)
      case Ok(buy) =>
        match ParsePriceAsWritten(container, false)
        case Err(e) => Err(e)
        case Ok(sell) => Ok(Base.DollarRate(dollarType, buy, sell))
  }

  /** `get_rates` as written: the dict literal evaluates its entries in order. */
  function GetRatesAsWritten(soup: Node): (r: Result<map<string, Base.DollarRate>, RaisedError>)
    ensures r.Ok? ==> r.value.Keys == {"oficial", "informal", "mep"}
  {
    match ExtractRateAsWritten(soup, "oficial")
    case Err(e) => Err(e)
    case Ok(oficial) =>
      match ExtractRateAsWritten(soup, "informal")
      case Err(e) => Err(e)
      case Ok(informal) =>
        match ExtractRateAsWritten(soup, "mep")
        case Err(e) => Err(e)
        case Ok(mep) => Ok(map["oficial" := oficial, "informal" := informal, "mep" := mep])
  }

  // ---------------------------------------------------------------------
  // As intended
  // ---------------------------------------------------------------------

  /**
   * `_extract_rate` with logging as a no-op: the name is always the
   * requested type; a missing container gives no prices; otherwise each
   * side is read independently by the shared price parser.
   */
  function ExtractRate(soup: Node, dollarType: string): (r: Base.DollarRate)
    ensures r.name == dollarType
    ensures FindContainer(soup, dollarType).None? ==> r.buy == None && r.sell == None
    ensures FindContainer(soup, dollarType).Some? ==>
      && r.buy == Base.ParsePrice(FindContainer(soup, dollarType).value, true)
      && r.sell == Base.ParsePrice(FindContainer(soup, dollarType).value, false)
  {
    match FindContainer(soup, dollarType)
    case None => Base.DollarRate(dollarType, None, None)
    case Some(container) =>
      Base.DollarRate(dollarType, Base.ParsePrice(container, true), Base.ParsePrice(container, false))
  }

  /** `get_rates`: one rate per type, each under its own type as key and name. */
  function GetRates(soup: Node): (r: map<string, Base.DollarRate>)
    ensures r.Keys == {"oficial", "informal", "mep"}
    ensures forall t :: t in r ==> r[t].name == t && r[t] == ExtractRate(soup, t)
  {
    map["oficial" := ExtractRate(soup, "oficial"),
        "informal" := ExtractRate(soup, "informal"),
        "mep" := ExtractRate(soup, "mep")]
  }

  // ---------------------------------------------------------------------
  // How the two relate
  // ---------------------------------------------------------------------

  /** Whenever the code as written returns, it returns what was intended. */
  lemma {:induction false} ExtractRateAgrees(soup: Node, dollarType: string)
    ensures ExtractRateAsWritten(soup, dollarType).Ok? ==>
      ExtractRateAsWritten(soup, dollarType).value == ExtractRate(soup, dollarType)
    ensures ExtractRateAsWritten(soup, dollarType).Err? <==>
      || FindContainer(soup, dollarType).None?
      || ParsePriceAsWritten(FindContainer(soup, dollarType).value, true).Err?
      || ParsePriceAsWritten(FindContainer(soup, dollarType).value, false).Err?
  {
    match FindContainer(soup, dollarType)
    case None =>
    case Some(container) =>
      var b := ParsePriceAsWritten(container, true);
      var s := ParsePriceAsWritten(container, false);
      if b.Ok? && s.Ok? {
        assert ExtractRateAsWritten(soup, dollarType) == Ok(Base.DollarRate(dollarType, b.value, s.value));
      }
  }

  lemma GetRatesAgrees(soup: Node)
    ensures GetRatesAsWritten(soup).Ok? ==> GetRatesAsWritten(soup).value == GetRates(soup)
    ensures GetRatesAsWritten(soup).Err? <==>
      exists i :: 0 <= i < |DollarTypes| && ExtractRateAsWritten(soup, DollarTypes[i]).Err?
  {
    GetRatesReturnsIntended(soup);
    GetRatesRaises(soup);
  }

  lemma GetRatesReturnsIntended(soup: Node)
    ensures GetRatesAsWritten(soup).Ok? ==> GetRatesAsWritten(soup).value == GetRates(soup)
  {
    var o, f, m := ExtractRateAsWritten(soup, "oficial"), ExtractRateAsWritten(soup, "informal"),
                   ExtractRateAsWritten(soup, "mep");
    if o.Ok? && f.Ok? && m.Ok? {
      ExtractRateAgrees(soup, "oficial");
      ExtractRateAgrees(soup, "informal");
      ExtractRateAgrees(soup, "mep");
      assert GetRatesAsWritten(soup) == Ok(map["oficial" := o.value, "informal" := f.value, "mep" := m.value]);
    }
  }

  lemma GetRatesRaises(soup: Node)
    ensures GetRatesAsWritten(soup).Err? <==>
      exists i :: 0 <= i < |DollarTypes| && ExtractRateAsWritten(soup, DollarTypes[i]).Err?
  {
    RaisesIffATypeRaises(soup);
    var o, f, m := ExtractRateAsWritten(soup, "oficial"), ExtractRateAsWritten(soup, "informal"),
                   ExtractRateAsWritten(soup, "mep");
    assert DollarTypes[0] == "oficial" && DollarTypes[1] == "informal" && DollarTypes[2] == "mep";
    if o.Err? {
      assert ExtractRateAsWritten(soup, DollarTypes[0]).Err?;
    } else if f.Err? {
      assert ExtractRateAsWritten(soup, DollarTypes[1]).Err?;
    } else if m.Err? {
      assert ExtractRateAsWritten(soup, DollarTypes[2]).Err?;
    }
  }

  lemma RaisesIffATypeRaises(soup: Node)
    ensures GetRatesAsWritten(soup).Err? <==>
      || ExtractRateAsWritten(soup, "oficial").Err?
      || ExtractRateAsWritten(soup, "informal").Err?
      || ExtractRateAsWritten(soup, "mep").Err?
  {
  }

  /** A page without the container raises instead of returning a rate without prices. */
  lemma MissingContainerRaises(dollarType: string)
    ensures ExtractRateAsWritten(Elem("[document]", [], None, []), dollarType) == Err(LoggerMissing)
    ensures ExtractRate(Elem("[document]", [], None, []), dollarType) == Base.DollarRate(dollarType, None, None)
    ensures GetRatesAsWritten(Elem("[document]", [], None, [])) == Err(LoggerMissing)
  {
  }

  /** Wherever the located text does not convert, the code as written raises and the intended code gives `None`. */
  lemma UnconvertibleTextRaises(container: Node, isBuy: bool)
    requires Base.PriceElement(container, isBuy).Some?
    requires PriceText.ParseFloat(PriceText.Clean(GetText(Base.PriceElement(container, isBuy).value))).None?
    ensures ParsePriceAsWritten(container, isBuy) == Err(LoggerMissing)
    ensures Base.ParsePrice(container, isBuy) == None
  {
  }

  /** In particular a price text with two or more commas raises. */
  lemma ManyCommasRaise(container: Node, isBuy: bool)
    requires Base.PriceElement(container, isBuy).Some?
    requires PriceText.Count(GetText(Base.PriceElement(container, isBuy).value), ',') >= 2
    ensures ParsePriceAsWritten(container, isBuy) == Err(LoggerMissing)
    ensures Base.ParsePrice(container, isBuy) == None
  {
    PriceText.ManyCommasIsNotANumber(GetText(Base.PriceElement(container, isBuy).value));
  }

  /** A buy price that does not convert raises instead of becoming `None`. */
  lemma UnparseablePriceRaises()
    ensures ParsePriceAsWritten(Base.Container([Base.Cell(true, "invalid")]), true) == Err(LoggerMissing)
    ensures Base.ParsePrice(Base.Container([Base.Cell(true, "invalid")]), true) == None
  {
    Base.OneCellLookup(true, "invalid");
    Base.ExampleWordText("invalid");
  }
}
