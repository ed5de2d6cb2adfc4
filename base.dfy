/**
 * scraper/dollars/base.py: the `DollarRate` record and the shared price
 * parser `_parse_price`.
 */
module Base {
  import opened Wrappers
  import opened Html
  import PriceText

  /**
   * A quote for one kind of dollar. Each price is independently absent
   * (`None`) when it could not be read from the page.
   */
  datatype DollarRate = DollarRate(name: string, buy: Option<real>, sell: Option<real>)

  /** The two class markers that locate one side's price: the `div`, then the `p` inside it. */
  datatype Selector = Selector(divClass: string, pClass: string)

  /** The fixed selector table: `is_buy` chooses one of exactly two marker pairs. */
  function PriceSelector(isBuy: bool): (s: Selector)
    ensures isBuy ==> s == Selector("css-4ywm3s", "chakra-text css-113t1jt")
    ensures !isBuy ==> s == Selector("css-6g5h8t", "chakra-text css-12u0t8b")
  {
    if isBuy then Selector("css-4ywm3s", "chakra-text css-113t1jt")
    else Selector("css-6g5h8t", "chakra-text css-12u0t8b")
  }

  function DivQuery(isBuy: bool): Query
  {
    ByClass("div", PriceSelector(isBuy).divClass)
  }

  function PQuery(isBuy: bool): Query
  {
    ByClass("p", PriceSelector(isBuy).pClass)
  }

  /**
   * `_parse_price(container, is_buy)`: the first `div` below the container
   * with the selected class, then the first `p` below that div with the
   * selected class; its text is cleaned and converted. A missing element or
   * text that is not a number gives `None` (the `ValueError` is caught);
   * nothing is raised.
   */
  function ParsePrice(container: Node, isBuy: bool): (r: Option<real>)
    ensures (forall x :: x in Descendants(container) ==> !Matches(x, DivQuery(isBuy))) ==> r == None
    ensures r.Some? ==>
      && Find(container, DivQuery(isBuy)).Some?
      && Find(Find(container, DivQuery(isBuy)).value, PQuery(isBuy)).Some?
  {
    match Find(container, DivQuery(isBuy))
    case None => None
    case Some(priceDiv) =>
      match Find(priceDiv, PQuery(isBuy))
      case None => None
      case Some(priceElement) => PriceText.ParseFloat(PriceText.Clean(GetText(priceElement)))
  }

  /** The element whose text `_parse_price` reads, when both lookups succeed. */
  function PriceElement(container: Node, isBuy: bool): Option<Node>
  {
    match Find(container, DivQuery(isBuy))
    case None => None
    case Some(priceDiv) => Find(priceDiv, PQuery(isBuy))
  }

  /**
   * The price is a function of the text of the located element alone, and
   * there is one only when that element exists.
   */
  lemma ParsePriceReadsOnlyPriceElement(container: Node, isBuy: bool)
    ensures PriceElement(container, isBuy).None? ==> ParsePrice(container, isBuy) == None
    ensures PriceElement(container, isBuy).Some? ==>
      ParsePrice(container, isBuy) == PriceText.ParseFloat(PriceText.Clean(GetText(PriceElement(container, isBuy).value)))
  {
  }

  /** A div with the selected class that holds no `p` with the selected class gives `None`. */
  lemma DivWithoutPriceGivesNone(container: Node, isBuy: bool, priceDiv: Node)
    requires Find(container, DivQuery(isBuy)) == Some(priceDiv)
    requires forall x :: x in Descendants(priceDiv) ==> !Matches(x, PQuery(isBuy))
    ensures ParsePrice(container, isBuy) == None
  {
  }

  /** Text that does not convert gives `None`, never an error. */
  lemma UnparseableGivesNone(container: Node, isBuy: bool)
    requires PriceElement(container, isBuy).Some?
    requires PriceText.ParseFloat(PriceText.Clean(GetText(PriceElement(container, isBuy).value))).None?
    ensures ParsePrice(container, isBuy) == None
  {
  }

  /** One such text: two or more decimal commas leave two dots after the cleaning. */
  lemma ManyCommasGiveNone(container: Node, isBuy: bool)
    requires PriceElement(container, isBuy).Some?
    requires PriceText.Count(GetText(PriceElement(container, isBuy).value), ',') >= 2
    ensures ParsePrice(container, isBuy) == None
  {
    PriceText.ManyCommasIsNotANumber(GetText(PriceElement(container, isBuy).value));
  }

  /**
   * Only the first matching div counts: markup appended after a container
   * part in which the selected div is already found changes nothing.
   */
  lemma {:induction false} LaterMarkupIgnored(tag: string, classes: seq<string>, id: Option<string>,
                                             cs: seq<Node>, more: seq<Node>, isBuy: bool)
    requires FindIn(cs, DivQuery(isBuy)).Some?
    ensures ParsePrice(Elem(tag, classes, id, cs + more), isBuy) == ParsePrice(Elem(tag, classes, id, cs), isBuy)
  {
    FindInAppendAfterHit(cs, more, DivQuery(isBuy));
  }

  /**
   * Markup appended after the container's children that holds no div with
   * the selected class changes nothing, whether or not the original
   * children held one.
   */
  lemma {:induction false} UnrelatedMarkupIgnored(tag: string, classes: seq<string>, id: Option<string>,
                                                 cs: seq<Node>, more: seq<Node>, isBuy: bool)
    requires FindIn(more, DivQuery(isBuy)).None?
    ensures ParsePrice(Elem(tag, classes, id, cs + more), isBuy) == ParsePrice(Elem(tag, classes, id, cs), isBuy)
  {
    if FindIn(cs, DivQuery(isBuy)).Some? {
      FindInAppendAfterHit(cs, more, DivQuery(isBuy));
    } else {
      FindInAppendAfterMiss(cs, more, DivQuery(isBuy));
    }
  }

  /** A located price rendered the page's way ("$1.140,50") reads back as its exact value. */
  lemma LocalizedPriceParses(container: Node, isBuy: bool, whole: nat, cents: nat)
    requires cents < 100
    requires PriceElement(container, isBuy).Some?
    requires GetText(PriceElement(container, isBuy).value) == PriceText.Localized(whole, cents)
    ensures ParsePrice(container, isBuy) == Some(whole as real + cents as real / 100.0)
  {
    PriceText.LocalizedRoundTrip(whole, cents);
  }

  // ---------------------------------------------------------------------
  // Concrete markup
  // ---------------------------------------------------------------------

  /** A `li` container holding one price cell per given side, in the page's structure. */
  function Cell(isBuy: bool, text: string): Node
  {
    Elem("div", [PriceSelector(isBuy).divClass], None,
      [Elem("p", ["chakra-text", if isBuy then "css-113t1jt" else "css-12u0t8b"], None, [Text(text)])])
  }

  function Container(cells: seq<Node>): Node
  {
    Elem("li", [], None, cells)
  }

  /** A price cell's own `p` holds no element, so nothing is found below it. */
  lemma CellLookup(isBuy: bool, text: string, q: Query)
    ensures Find(Cell(isBuy, text).children[0], q) == None
    ensures Find(Cell(isBuy, text), q) == if Matches(Cell(isBuy, text).children[0], q) then Some(Cell(isBuy, text).children[0]) else None
    ensures GetText(Cell(isBuy, text).children[0]) == text
  {
    var p := Cell(isBuy, text).children[0];
    assert p.children[1..] == [];
    assert Cell(isBuy, text).children[1..] == [];
    assert ForestText([Text(text)]) == text + ForestText([]);
  }

  /** The class tokens of each side's `p` rebuild to its selector, so it matches its own query. */
  lemma CellMatches(isBuy: bool, text: string)
    ensures Matches(Cell(isBuy, text), DivQuery(isBuy)) && !Matches(Cell(isBuy, text), DivQuery(!isBuy))
    ensures Matches(Cell(isBuy, text).children[0], PQuery(isBuy))
    ensures !Matches(Cell(isBuy, text).children[0], DivQuery(true)) && !Matches(Cell(isBuy, text).children[0], DivQuery(false))
  {
    assert JoinSpace(["chakra-text", "css-113t1jt"]) == "chakra-text css-113t1jt";
    assert JoinSpace(["chakra-text", "css-12u0t8b"]) == "chakra-text css-12u0t8b";
  }

  /** A forest made of one price cell holds no div of the other side. */
  lemma OtherCellHasNoDiv(isBuy: bool, text: string)
    ensures FindIn([Cell(isBuy, text)], DivQuery(!isBuy)).None?
  {
    var cell := Cell(isBuy, text);
    CellMatches(isBuy, text);
    CellLookup(isBuy, text, DivQuery(!isBuy));
    assert [cell][1..] == [];
  }

  /** In a two-cell container each side finds its own cell's `p`, whatever the other cell says. */
  lemma TwoCellLookup(buyText: string, sellText: string)
    ensures PriceElement(Container([Cell(true, buyText), Cell(false, sellText)]), true).Some?
    ensures GetText(PriceElement(Container([Cell(true, buyText), Cell(false, sellText)]), true).value) == buyText
    ensures PriceElement(Container([Cell(true, buyText), Cell(false, sellText)]), false).Some?
    ensures GetText(PriceElement(Container([Cell(true, buyText), Cell(false, sellText)]), false).value) == sellText
  {
    var cb, cs := Cell(true, buyText), Cell(false, sellText);
    CellMatches(true, buyText);
    CellMatches(false, sellText);
    CellLookup(true, buyText, DivQuery(false));
    CellLookup(true, buyText, PQuery(true));
    CellLookup(false, sellText, PQuery(false));
    var ns := [cb, cs];
    assert ns[0] == cb && ns[1..] == [cs];
    assert FindIn(ns, DivQuery(true)) == Some(cb);
    assert FindIn([cs], DivQuery(false)) == Some(cs);
    assert FindIn(ns, DivQuery(false)) == Some(cs);
    assert Find(cb, PQuery(true)) == Some(cb.children[0]);
    assert Find(cs, PQuery(false)) == Some(cs.children[0]);
  }

  /** A one-cell container finds the cell's `p` for its own side. */
  lemma OneCellLookup(isBuy: bool, text: string)
    ensures PriceElement(Container([Cell(isBuy, text)]), isBuy).Some?
    ensures GetText(PriceElement(Container([Cell(isBuy, text)]), isBuy).value) == text
  {
    var cell := Cell(isBuy, text);
    CellMatches(isBuy, text);
    CellLookup(isBuy, text, PQuery(isBuy));
    assert FindIn([cell], DivQuery(isBuy)) == Some(cell);
    assert Find(cell, PQuery(isBuy)) == Some(cell.children[0]);
  }

  /** "1.140" is one thousand one hundred forty, and "$ 350,50 " is 350.50. */
  lemma ExamplePrices()
    ensures ParsePrice(Container([Cell(true, "1.140"), Cell(false, "$ 350,50 ")]), true) == Some(1140.0)
    ensures ParsePrice(Container([Cell(true, "1.140"), Cell(false, "$ 350,50 ")]), false) == Some(350.5)
  {
    var c := Container([Cell(true, "1.140"), Cell(false, "$ 350,50 ")]);
    TwoCellLookup("1.140", "$ 350,50 ");
    ParsePriceReadsOnlyPriceElement(c, true);
    ParsePriceReadsOnlyPriceElement(c, false);
    ExampleGrouped();
    ExampleDecimal("$ 350,50 ");
  }

  lemma ExampleGrouped()
    ensures PriceText.ParseFloat(PriceText.Clean("1.140")) == Some(1140.0)
  {
    assert PriceText.Grouped(1140) == "1.140" by {
      assert PriceText.Grouped(1) == "1";
      assert PriceText.ThreeDigits(140) == "140";
    }
    PriceText.GroupedIntegerRoundTrip(1140);
  }

  /** The currency sign goes and the decimal comma becomes a point. */
  lemma ExampleDecimalScrubs(s: string, t: string, whole: string, cents: string)
    requires s == "$ 350,50 " && t == " 350.50 " && whole == " 350" && cents == "50 "
    ensures PriceText.Scrub(s) == t
  {
    assert s == "$" + whole + "," + cents;
    PriceText.ScrubPriceShape(whole, cents);
    PriceText.ScrubPlain(whole);
    PriceText.ScrubPlain(cents);
  }

  /** The padding on both sides goes. */
  lemma ExampleDecimalStrips(t: string, c: string)
    requires t == " 350.50 " && c == "350.50"
    ensures PriceText.Strip(t) == c
  {
    assert t == [' '] + c + [' '];
    PriceText.StripPadded(c);
  }

  lemma ExampleDecimalConverts(c: string)
    requires c == "350.50"
    ensures PriceText.ParseFloat(c) == Some(350.5)
  {
    var u, f := c[..3], c[4..];
    assert c == u + "." + f;
    assert PriceText.AllDigits(u) && PriceText.DigitsValue(u) == 350 by {
      assert u[..2] == "35";
      assert "35"[..1] == "3";
      assert "3"[..0] == "";
    }
    assert PriceText.AllDigits(f) && PriceText.DigitsValue(f) == 50 by {
      assert f[..1] == "5";
      assert "5"[..0] == "";
    }
    PriceText.ParseDigitsDotDigits(u, f);
    assert PriceText.Pow10(2) == 100;
  }

  lemma ExampleDecimal(s: string)
    requires s == "$ 350,50 "
    ensures PriceText.ParseFloat(PriceText.Clean(s)) == Some(350.5)
  {
    var t, c := " 350.50 ", "350.50";
    ExampleDecimalScrubs(s, t, " 350", "50 ");
    ExampleDecimalStrips(t, c);
    ExampleDecimalConverts(c);
    assert PriceText.Clean(s) == PriceText.Strip(PriceText.Scrub(s));
  }

  /** "invalid" has no digit at all. */
  lemma ExampleWordText(s: string)
    requires s == "invalid"
    ensures PriceText.ParseFloat(PriceText.Clean(s)) == None
  {
    PriceText.ScrubPlain(s);
    assert !PriceText.IsSpace(s[0]) && !PriceText.IsSpace(s[|s| - 1]);
    PriceText.StripIdentity(s);
    assert PriceText.Clean(s) == s;
    assert forall i :: 0 <= i < |s| ==> !PriceText.IsDigit(s[i]);
    PriceText.NoDigitIsNotANumber(s);
  }

  lemma ExampleWord()
    ensures ParsePrice(Container([Cell(true, "invalid")]), true) == None
  {
    OneCellLookup(true, "invalid");
    ParsePriceReadsOnlyPriceElement(Container([Cell(true, "invalid")]), true);
    ExampleWordText("invalid");
  }

  /** "1,2,3" cleans to "1.2.3", which has two decimal points. */
  lemma ExampleCommas()
    ensures ParsePrice(Container([Cell(false, "1,2,3")]), false) == None
  {
    OneCellLookup(false, "1,2,3");
    assert PriceText.Count("1,2,3", ',') == 2;
    PriceText.ManyCommasIsNotANumber("1,2,3");
  }
}
