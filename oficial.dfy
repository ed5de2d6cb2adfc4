/** scraper/dollars/oficial.py: the official rate, read from both price cells. */
module Oficial {
  import opened Wrappers
  import opened Html
  import Base
  import PriceText

  /** `OficialDollar(buy, sell)`: the name is fixed and both prices are stored as given. */
  function New(buy: Option<real>, sell: Option<real>): (r: Base.DollarRate)
    ensures r.name == "oficial"
    ensures r.buy == buy && r.sell == sell
  {
    Base.DollarRate("oficial", buy, sell)
  }

  /** `OficialDollar.extract_from_html`: buy from the buy cell, sell from the sell cell. */
  function ExtractFromHtml(container: Node): (r: Base.DollarRate)
    ensures r.name == "oficial"
    ensures r.buy == Base.ParsePrice(container, true)
    ensures r.sell == Base.ParsePrice(container, false)
  {
    New(Base.ParsePrice(container, true), Base.ParsePrice(container, false))
  }

  /** A container without the buy marker still yields its sell price. */
  lemma MissingBuyMarkerKeepsSell(container: Node)
    requires forall x :: x in Descendants(container) ==> !Matches(x, Base.DivQuery(true))
    ensures ExtractFromHtml(container).buy == None
    ensures ExtractFromHtml(container).sell == Base.ParsePrice(container, false)
  {
  }

  /** Both prices rendered the page's way read back exactly when the buy cell comes before the sell cell. */
  lemma LocalizedQuoteReadsBack(buyWhole: nat, buyCents: nat, sellWhole: nat, sellCents: nat)
    requires buyCents < 100 && sellCents < 100
    ensures ExtractFromHtml(Base.Container([
              Base.Cell(true, PriceText.Localized(buyWhole, buyCents)),
              Base.Cell(false, PriceText.Localized(sellWhole, sellCents))]))
         == New(Some(buyWhole as real + buyCents as real / 100.0), Some(sellWhole as real + sellCents as real / 100.0))
  {
    var b, s := PriceText.Localized(buyWhole, buyCents), PriceText.Localized(sellWhole, sellCents);
    var c := Base.Container([Base.Cell(true, b), Base.Cell(false, s)]);
    Base.TwoCellLookup(b, s);
    Base.LocalizedPriceParses(c, true, buyWhole, buyCents);
    Base.LocalizedPriceParses(c, false, sellWhole, sellCents);
  }
}
