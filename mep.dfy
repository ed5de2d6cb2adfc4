/** scraper/dollars/mep.py: the MEP rate, which is quoted for selling only. */
module Mep {
  import opened Wrappers
  import opened Html
  import Base
  import PriceText

  /** `MEPDollar(sell)`: there is no buy argument, and buy is always `None`. */
  function New(sell: Option<real>): (r: Base.DollarRate)
    ensures r.name == "mep"
    ensures r.buy == None && r.sell == sell
  {
    Base.DollarRate("mep", None, sell)
  }

  /** `MEPDollar.extract_from_html`: only the sell cell is read. */
  function ExtractFromHtml(container: Node): (r: Base.DollarRate)
    ensures r.name == "mep" && r.buy == None
    ensures r.sell == Base.ParsePrice(container, false)
  {
    New(Base.ParsePrice(container, false))
  }

  /** A buy cell added after the container's children is never consulted. */
  lemma BuyMarkupIgnored(cs: seq<Node>, buyText: string)
    ensures ExtractFromHtml(Base.Container(cs + [Base.Cell(true, buyText)])) == ExtractFromHtml(Base.Container(cs))
  {
    Base.OtherCellHasNoDiv(true, buyText);
    Base.UnrelatedMarkupIgnored("li", [], None, cs, [Base.Cell(true, buyText)], false);
  }

  /** A sell price rendered the page's way reads back exactly. */
  lemma LocalizedSellReadsBack(whole: nat, cents: nat)
    requires cents < 100
    ensures ExtractFromHtml(Base.Container([Base.Cell(false, PriceText.Localized(whole, cents))]))
         == New(Some(whole as real + cents as real / 100.0))
  {
    var s := PriceText.Localized(whole, cents);
    Base.OneCellLookup(false, s);
    Base.LocalizedPriceParses(Base.Container([Base.Cell(false, s)]), false, whole, cents);
  }
}
