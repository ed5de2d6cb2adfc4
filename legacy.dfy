/**
 * scraper.py: the older `DolarScraper`, which walks the label divs of a
 * quotation block, looks for the value that follows each label in document
 * order, and records a quote in its `data` dictionary only when both prices
 * were read. Prices stay text.
 *
 * The page is the parsed tree `soup`; `Descendants(soup)` is its document
 * order, and elements are referred to by their index in it, so that
 * `find_next` is a search over the indices after a label's own.
 */
module LegacyScraper {
  import opened Wrappers
  import opened Html
  import PriceText

  /** `{"compra": ..., "venta": ...}`: the buy and sell prices as stripped text. */
  datatype Quote = Quote(compra: string, venta: string)

  /** The locals `buy_price` and `sell_price` of `parse_quotation_block`. */
  datatype Prices = Prices(buy: Option<string>, sell: Option<string>)

  const LabelQuery: Query := ByClass("div", "chakra-text css-1hexnl9")
  const ValueQuery: Query := ByClass("div", "chakra-skeleton css-ahyunb")
  const SellTagQuery: Query := ByClass("p", "chakra-text css-113t1jt")
  const BuyTagQuery: Query := ByClass("p", "chakra-text css-12u0t8b")
  const SellMarker: string := "Vend\U{e9} a"
  const BuyMarker: string := "Compr\U{e1} a"

  function BlockQuery(blockId: string): Query
  {
    ById("ul", blockId)
  }

  // ---------------------------------------------------------------------
  // Text and document helpers
  // ---------------------------------------------------------------------

  /** Python's `sub in s`, scanning from the left. */
  predicate Contains(s: string, sub: string)
  {
    sub <= s || (s != [] && Contains(s[1..], sub))
  }

  /** `Contains` holds exactly when `sub` occurs in `s` at some position. */
  lemma {:induction false} ContainsIsSubstring(s: string, sub: string)
    ensures Contains(s, sub) <==> exists i :: 0 <= i <= |s| && sub <= s[i..]
  {
    if sub <= s {
      assert s[0..] == s;
    } else if s == [] {
      forall i | 0 <= i <= |s| ensures !(sub <= s[i..]) {
        assert s[i..] == s;
      }
    } else {
      ContainsIsSubstring(s[1..], sub);
      if Contains(s[1..], sub) {
        var i :| 0 <= i <= |s[1..]| && sub <= s[1..][i..];
        assert s[1..][i..] == s[i + 1..];
      } else {
        forall i | 0 <= i <= |s| ensures !(sub <= s[i..]) {
          if i > 0 {
            assert s[1..][i - 1..] == s[i..];
          } else {
            assert s[0..] == s;
          }
        }
      }
    }
  }

  /** The first index at or after `i` whose element matches `q`. */
  function FirstFrom(doc: seq<Node>, i: nat, q: Query): (r: Option<nat>)
    requires i <= |doc|
    ensures r.Some? ==> i <= r.value < |doc| && Matches(doc[r.value], q)
    ensures r.Some? ==> forall j :: i <= j < r.value ==> !Matches(doc[j], q)
    ensures r.None? ==> forall j :: i <= j < |doc| ==> !Matches(doc[j], q)
    decreases |doc| - i
  {
    if i == |doc| then None
    else if Matches(doc[i], q) then Some(i)
    else FirstFrom(doc, i + 1, q)
  }

  /**
   * `label.find_next(...)`: the first matching element after position `k`
   * in document order. This includes the label's own descendants and
   * everything after the label's block, up to the end of the page.
   */
  function FindNext(doc: seq<Node>, k: nat, q: Query): (r: Option<nat>)
    requires k < |doc|
    ensures r.Some? ==> k < r.value < |doc| && Matches(doc[r.value], q)
    ensures r.Some? ==> forall j :: k < j < r.value ==> !Matches(doc[j], q)
    ensures r.None? ==> forall j :: k < j < |doc| ==> !Matches(doc[j], q)
  {
    FirstFrom(doc, k + 1, q)
  }

  /** The indices in `lo .. hi` whose element matches `q`, ascending. */
  function MatchingIndices(doc: seq<Node>, q: Query, lo: nat, hi: nat): (r: seq<nat>)
    requires lo <= hi <= |doc|
    ensures forall i :: 0 <= i < |r| ==> lo <= r[i] < hi && Matches(doc[r[i]], q)
    ensures forall i, j :: 0 <= i < j < |r| ==> r[i] < r[j]
    decreases hi - lo
  {
    if lo == hi then []
    else if Matches(doc[lo], q) then [lo] + MatchingIndices(doc, q, lo + 1, hi)
    else MatchingIndices(doc, q, lo + 1, hi)
  }

  /** No matching position in the range is missed. */
  lemma {:induction false} MatchingIndicesComplete(doc: seq<Node>, q: Query, lo: nat, hi: nat, j: nat)
    requires lo <= j < hi <= |doc| && Matches(doc[j], q)
    ensures j in MatchingIndices(doc, q, lo, hi)
    decreases hi - lo
  {
    if lo < j {
      MatchingIndicesComplete(doc, q, lo + 1, hi, j);
    }
  }

  /** The elements at the given positions. */
  function NodesAt(doc: seq<Node>, ks: seq<nat>): (r: seq<Node>)
    requires forall i :: 0 <= i < |ks| ==> ks[i] < |doc|
    ensures |r| == |ks|
  {
    if ks == [] then [] else [doc[ks[0]]] + NodesAt(doc, ks[1..])
  }

  /** In a page's document order, an element's descendants directly follow it. */
  lemma SubtreeFits(soup: Node, b: nat)
    requires b < |Descendants(soup)|
    ensures b + 1 + |Descendants(Descendants(soup)[b])| <= |Descendants(soup)|
    ensures Descendants(soup)[b + 1 .. b + 1 + |Descendants(Descendants(soup)[b])|] == Descendants(Descendants(soup)[b])
  {
    if soup.Elem? {
      PreorderSubtreeIsContiguous(soup.children, b);
    }
  }

  /** `block.find_all("div", class_="chakra-text css-1hexnl9")`, as positions in the page. */
  function Labels(doc: seq<Node>, b: nat): (r: seq<nat>)
    requires b < |doc| && b + 1 + |Descendants(doc[b])| <= |doc|
    ensures forall i :: 0 <= i < |r| ==> b < r[i] < |doc| && Matches(doc[r[i]], LabelQuery)
  {
    MatchingIndices(doc, LabelQuery, b + 1, b + 1 + |Descendants(doc[b])|)
  }

  // ---------------------------------------------------------------------
  // One label, one block
  // ---------------------------------------------------------------------

  /** A price read as text: absent, or stripped of surrounding whitespace. */
  predicate Stripped(v: Option<string>)
  {
    v.Some? && v.value != [] ==> !PriceText.IsSpace(v.value[0]) && !PriceText.IsSpace(v.value[|v.value| - 1])
  }

  /**
   * The value a label at position `k` points to: the next value div in
   * document order, then the first `p` with the side's class inside it,
   * then its stripped text. Either lookup failing gives `None`.
   */
  function ValueAfter(doc: seq<Node>, k: nat, tagQuery: Query): (r: Option<string>)
    requires k < |doc|
    ensures FindNext(doc, k, ValueQuery).None? ==> r == None
    ensures FindNext(doc, k, ValueQuery).Some? && Find(doc[FindNext(doc, k, ValueQuery).value], tagQuery).Some? ==> r.Some?
    ensures r.Some? ==>
      && FindNext(doc, k, ValueQuery).Some?
      && Find(doc[FindNext(doc, k, ValueQuery).value], tagQuery).Some?
      && r.value == PriceText.Strip(GetText(Find(doc[FindNext(doc, k, ValueQuery).value], tagQuery).value))
    ensures Stripped(r)
  {
    match FindNext(doc, k, ValueQuery)
    case None => None
    case Some(j) =>
      match Find(doc[j], tagQuery)
      case None => None
      case Some(tag) => Some(PriceText.Strip(GetText(tag)))
  }

  predicate IsSellLabel(doc: seq<Node>, k: nat)
    requires k < |doc|
  {
    Contains(GetText(doc[k]), SellMarker)
  }

  /** A buy label: the buy marker, and not the sell marker, which is tested first. */
  predicate IsBuyLabel(doc: seq<Node>, k: nat)
    requires k < |doc|
  {
    !Contains(GetText(doc[k]), SellMarker) && Contains(GetText(doc[k]), BuyMarker)
  }

  /** One iteration of the label loop. */
  function Step(doc: seq<Node>, k: nat, p: Prices): (r: Prices)
    requires k < |doc|
    ensures IsSellLabel(doc, k) ==> r == Prices(p.buy, ValueAfter(doc, k, SellTagQuery))
    ensures IsBuyLabel(doc, k) ==> r == Prices(ValueAfter(doc, k, BuyTagQuery), p.sell)
    ensures !IsSellLabel(doc, k) && !IsBuyLabel(doc, k) ==> r == p
  {
    var text := GetText(doc[k]);
    if Contains(text, SellMarker) then p.(sell := ValueAfter(doc, k, SellTagQuery))
    else if Contains(text, BuyMarker) then p.(buy := ValueAfter(doc, k, BuyTagQuery))
    else p
  }

  /** Every label position lies within the page. */
  predicate InDoc(doc: seq<Node>, labels: seq<nat>)
  {
    forall i :: 0 <= i < |labels| ==> labels[i] < |doc|
  }

  /** The two locals after the loop has visited `labels` in order. */
  function Scan(doc: seq<Node>, labels: seq<nat>): (r: Prices)
    requires InDoc(doc, labels)
    ensures Stripped(r.buy) && Stripped(r.sell)
  {
    if labels == [] then Prices(None, None)
    else Step(doc, labels[|labels| - 1], Scan(doc, labels[..|labels| - 1]))
  }

  /** Python truthiness of an optional string: present and non-empty. */
  predicate Truthy(v: Option<string>)
  {
    v.Some? && v.value != ""
  }

  /**
   * What one call of `parse_quotation_block` records: nothing without the
   * block or without both prices, otherwise the two prices as text.
   */
  function BlockResult(soup: Node, blockId: string): (r: Option<Quote>)
    ensures (forall x :: x in Descendants(soup) ==> !Matches(x, BlockQuery(blockId))) ==> r == None
    ensures r.Some? ==> r.value.compra != "" && r.value.venta != ""
    ensures r.Some? ==> Stripped(Some(r.value.compra)) && Stripped(Some(r.value.venta))
  {
    var doc := Descendants(soup);
    match FirstIndex(doc, BlockQuery(blockId))
    case None => None
    case Some(b) =>
      SubtreeFits(soup, b);
      var p := Scan(doc, Labels(doc, b));
      if Truthy(p.buy) && Truthy(p.sell) then Some(Quote(p.buy.value, p.sell.value)) else None
  }

  /**
   * With the block found at position `b`, a quote is recorded exactly when
   * both prices the label loop ends with are non-empty, and the quote holds
   * those two texts.
   */
  lemma BlockRecords(soup: Node, blockId: string, b: nat)
    requires FirstIndex(Descendants(soup), BlockQuery(blockId)) == Some(b)
    ensures b + 1 + |Descendants(Descendants(soup)[b])| <= |Descendants(soup)|
    ensures var p := Scan(Descendants(soup), Labels(Descendants(soup), b));
      && (BlockResult(soup, blockId).Some? <==> Truthy(p.buy) && Truthy(p.sell))
      && (BlockResult(soup, blockId).Some? ==> BlockResult(soup, blockId).value == Quote(p.buy.value, p.sell.value))
  {
    SubtreeFits(soup, b);
  }

  /**
   * The recorded quote holds the value after the block's last buy label as
   * `compra` and the value after its last sell label as `venta`; it is
   * recorded exactly when both of those are non-empty.
   */
  lemma RecordedQuoteIsLastLabels(soup: Node, blockId: string, b: nat, buyAt: nat, sellAt: nat)
    requires FirstIndex(Descendants(soup), BlockQuery(blockId)) == Some(b)
    requires b + 1 + |Descendants(Descendants(soup)[b])| <= |Descendants(soup)|
    requires buyAt < |Labels(Descendants(soup), b)| && sellAt < |Labels(Descendants(soup), b)|
    requires IsBuyLabel(Descendants(soup), Labels(Descendants(soup), b)[buyAt])
    requires forall j :: buyAt < j < |Labels(Descendants(soup), b)| ==> !IsBuyLabel(Descendants(soup), Labels(Descendants(soup), b)[j])
    requires IsSellLabel(Descendants(soup), Labels(Descendants(soup), b)[sellAt])
    requires forall j :: sellAt < j < |Labels(Descendants(soup), b)| ==> !IsSellLabel(Descendants(soup), Labels(Descendants(soup), b)[j])
    ensures var doc := Descendants(soup);
      var buy := ValueAfter(doc, Labels(doc, b)[buyAt], BuyTagQuery);
      var sell := ValueAfter(doc, Labels(doc, b)[sellAt], SellTagQuery);
      && (BlockResult(soup, blockId).Some? <==> Truthy(buy) && Truthy(sell))
      && (BlockResult(soup, blockId).Some? ==> BlockResult(soup, blockId).value == Quote(buy.value, sell.value))
  {
    var doc := Descendants(soup);
    var labels := Labels(doc, b);
    LabelsInDoc(doc, b);
    LastBuyLabelWins(doc, labels, buyAt);
    LastSellLabelWins(doc, labels, sellAt);
    BlockRecords(soup, blockId, b);
  }

  lemma LabelsInDoc(doc: seq<Node>, b: nat)
    requires b < |doc| && b + 1 + |Descendants(doc[b])| <= |doc|
    ensures InDoc(doc, Labels(doc, b))
  {
  }

  /**
   * The dictionary after `parse_quotation_block(soup, block_id, name)`:
   * only the entry `name` can change, and it changes to the recorded quote
   * exactly when one is recorded.
   */
  function BlockUpdate(data: map<string, Quote>, soup: Node, blockId: string, name: string): (r: map<string, Quote>)
    ensures forall k :: k != name ==> (k in r <==> k in data)
    ensures forall k :: k != name && k in data ==> r[k] == data[k]
    ensures BlockResult(soup, blockId).None? ==> r == data
    ensures BlockResult(soup, blockId).Some? ==> name in r && r[name] == BlockResult(soup, blockId).value
  {
    match BlockResult(soup, blockId)
    case None => data
    case Some(q) => data[name := q]
  }

  /**
   * The dictionary after `parse_data`: the three blocks, in this order.
   * Nothing is removed, and the only keys it can add are the three names.
   */
  function ParseDataUpdate(data: map<string, Quote>, soup: Node): (r: map<string, Quote>)
    ensures data.Keys <= r.Keys
    ensures r.Keys <= data.Keys + {"Official Dollar", "Blue Dollar", "MEP Dollar"}
    ensures forall k :: k in data && k !in {"Official Dollar", "Blue Dollar", "MEP Dollar"} ==> r[k] == data[k]
  {
    var afterOficial := BlockUpdate(data, soup, "quotation-oficial-desktop", "Official Dollar");
    var afterInformal := BlockUpdate(afterOficial, soup, "quotation-informal-desktop", "Blue Dollar");
    BlockUpdate(afterInformal, soup, "quotation-mep-desktop", "MEP Dollar")
  }

  // ---------------------------------------------------------------------
  // The scraper object
  // ---------------------------------------------------------------------

  class DolarScraper {
    var url: string
    var data: map<string, Quote>

    constructor(url: string)
      ensures this.url == url && data == map[]
    {
      this.url := url;
      data := map[];
    }

    /** `parse_quotation_block`: one block, one possible entry. */
    method ParseQuotationBlock(soup: Node, blockId: string, name: string)
      modifies this`data
      ensures data == BlockUpdate(old(data), soup, blockId, name)
    {
      var doc := Descendants(soup);
      var block := FirstIndex(doc, BlockQuery(blockId));
      if block.None? {
        return;
      }
      var b := block.value;
      SubtreeFits(soup, b);
      var buyPrice: Option<string> := None;
      var sellPrice: Option<string> := None;
      var labels := Labels(doc, b);
      var i := 0;
      while i < |labels|
        invariant 0 <= i <= |labels|
        invariant Prices(buyPrice, sellPrice) == Scan(doc, labels[..i])
      {
        var at := labels[i];
        var text := GetText(doc[at]);
        if Contains(text, SellMarker) {
          sellPrice := ValueAfter(doc, at, SellTagQuery);
        } else if Contains(text, BuyMarker) {
          buyPrice := ValueAfter(doc, at, BuyTagQuery);
        }
        assert labels[..i + 1][..i] == labels[..i];
        i := i + 1;
      }
      assert labels[..i] == labels;
      if Truthy(buyPrice) && Truthy(sellPrice) {
        data := data[name := Quote(buyPrice.value, sellPrice.value)];
      }
    }

    /** `parse_data`: the official, informal and MEP blocks, in that order. */
    method ParseData(soup: Node)
      modifies this`data
      ensures data == ParseDataUpdate(old(data), soup)
    {
      ParseQuotationBlock(soup, "quotation-oficial-desktop", "Official Dollar");
      ParseQuotationBlock(soup, "quotation-informal-desktop", "Blue Dollar");
      ParseQuotationBlock(soup, "quotation-mep-desktop", "MEP Dollar");
    }

    /** `get_data`, with the fetched page given already parsed. */
    method GetData(page: Node) returns (r: map<string, Quote>)
      modifies this`data
      ensures data == ParseDataUpdate(old(data), page)
      ensures r == data
    {
      ParseData(page);
      r := data;
    }
  }

  // ---------------------------------------------------------------------
  // Properties
  // ---------------------------------------------------------------------

  /** The block is the page's first `ul` with that id, as `soup.find` returns it. */
  lemma BlockIsFind(soup: Node, blockId: string)
    ensures FirstIndex(Descendants(soup), BlockQuery(blockId)).None? <==> Find(soup, BlockQuery(blockId)).None?
    ensures FirstIndex(Descendants(soup), BlockQuery(blockId)).Some? ==>
      Find(soup, BlockQuery(blockId)) == Some(Descendants(soup)[FirstIndex(Descendants(soup), BlockQuery(blockId)).value])
  {
    FindIsFirstInPreorder(soup, BlockQuery(blockId));
    FirstIndexAtFirstOf(Descendants(soup), BlockQuery(blockId));
  }

  lemma {:induction false} MatchingIndicesAreFilter(doc: seq<Node>, q: Query, lo: nat, hi: nat)
    requires lo <= hi <= |doc|
    ensures NodesAt(doc, MatchingIndices(doc, q, lo, hi)) == Filter(doc[lo..hi], q)
    decreases hi - lo
  {
    if lo < hi {
      var xs := doc[lo..hi];
      assert xs[0] == doc[lo];
      assert xs[1..] == doc[lo + 1..hi];
      MatchingIndicesAreFilter(doc, q, lo + 1, hi);
      if Matches(doc[lo], q) {
        var ks := MatchingIndices(doc, q, lo, hi);
        assert ks[0] == lo && ks[1..] == MatchingIndices(doc, q, lo + 1, hi);
      }
    }
  }

  /** The labels the loop visits are exactly `block.find_all(...)`, in document order. */
  lemma LabelsAreFindAll(soup: Node, b: nat)
    requires b < |Descendants(soup)|
    ensures b + 1 + |Descendants(Descendants(soup)[b])| <= |Descendants(soup)|
    ensures NodesAt(Descendants(soup), Labels(Descendants(soup), b)) == FindAll(Descendants(soup)[b], LabelQuery)
  {
    SubtreeFits(soup, b);
    LabelsOfSubtree(Descendants(soup), b);
  }

  lemma LabelsOfSubtree(doc: seq<Node>, b: nat)
    requires b < |doc| && b + 1 + |Descendants(doc[b])| <= |doc|
    requires doc[b + 1 .. b + 1 + |Descendants(doc[b])|] == Descendants(doc[b])
    ensures NodesAt(doc, Labels(doc, b)) == FindAll(doc[b], LabelQuery)
  {
    SubtreeMatches(doc, b, b + 1 + |Descendants(doc[b])|, LabelQuery);
  }

  lemma SubtreeMatches(doc: seq<Node>, b: nat, hi: nat, q: Query)
    requires b < hi <= |doc| && hi == b + 1 + |Descendants(doc[b])|
    requires doc[b + 1 .. hi] == Descendants(doc[b])
    ensures NodesAt(doc, MatchingIndices(doc, q, b + 1, hi)) == FindAll(doc[b], q)
  {
    MatchingIndicesAreFilter(doc, q, b + 1, hi);
    SubtreeFilter(doc, b, hi, q);
  }

  lemma SubtreeFilter(doc: seq<Node>, b: nat, hi: nat, q: Query)
    requires b < hi <= |doc| && hi == b + 1 + |Descendants(doc[b])|
    requires doc[b + 1 .. hi] == Descendants(doc[b])
    ensures Filter(doc[b + 1 .. hi], q) == FindAll(doc[b], q)
  {
  }

  /** A label carrying both markers is a sell label only: the buy price is left alone. */
  lemma BothMarkersSetSellOnly(doc: seq<Node>, k: nat, p: Prices)
    requires k < |doc|
    requires Contains(GetText(doc[k]), SellMarker) && Contains(GetText(doc[k]), BuyMarker)
    ensures Step(doc, k, p).buy == p.buy
    ensures Step(doc, k, p).sell == ValueAfter(doc, k, SellTagQuery)
  {
  }

  /** A sell label sets the sell price; any other label leaves it alone. */
  lemma StepSell(doc: seq<Node>, k: nat, p: Prices)
    requires k < |doc|
    ensures Step(doc, k, p).sell == if IsSellLabel(doc, k) then ValueAfter(doc, k, SellTagQuery) else p.sell
  {
  }

  /** A buy label sets the buy price; any other label leaves it alone. */
  lemma StepBuy(doc: seq<Node>, k: nat, p: Prices)
    requires k < |doc|
    ensures Step(doc, k, p).buy == if IsBuyLabel(doc, k) then ValueAfter(doc, k, BuyTagQuery) else p.buy
  {
  }

  /** Without any sell label the sell price stays `None`. */
  lemma {:induction false} NoSellLabel(doc: seq<Node>, labels: seq<nat>)
    requires InDoc(doc, labels)
    requires forall i :: 0 <= i < |labels| ==> !IsSellLabel(doc, labels[i])
    ensures Scan(doc, labels).sell == None
  {
    if labels != [] {
      NoSellLabel(doc, labels[..|labels| - 1]);
    }
  }

  /** The fold over a non-empty list is one more `Step` after the fold over all but its last label. */
  lemma ScanUnfolds(doc: seq<Node>, labels: seq<nat>)
    requires InDoc(doc, labels)
    requires labels != []
    ensures Scan(doc, labels) == Step(doc, labels[|labels| - 1], Scan(doc, labels[..|labels| - 1]))
  {
    var prefix := labels[..|labels| - 1];
    assert forall j :: 0 <= j < |prefix| ==> prefix[j] < |doc|;
  }

  /** A last label that is not a sell label leaves the sell price of the fold as it was. */
  lemma SellSkipped(doc: seq<Node>, labels: seq<nat>)
    requires InDoc(doc, labels)
    requires labels != [] && !IsSellLabel(doc, labels[|labels| - 1])
    ensures Scan(doc, labels).sell == Scan(doc, labels[..|labels| - 1]).sell
  {
    ScanUnfolds(doc, labels);
    StepSell(doc, labels[|labels| - 1], Scan(doc, labels[..|labels| - 1]));
  }

  /** Dropping the last label keeps the conditions of `LastSellLabelWins` for an earlier one. */
  lemma SellLabelsOfPrefix(doc: seq<Node>, labels: seq<nat>, i: nat)
    requires InDoc(doc, labels)
    requires i < |labels| - 1 && IsSellLabel(doc, labels[i])
    requires forall j :: i < j < |labels| ==> !IsSellLabel(doc, labels[j])
    ensures InDoc(doc, labels[..|labels| - 1])
    ensures IsSellLabel(doc, labels[..|labels| - 1][i])
    ensures forall j :: i < j < |labels| - 1 ==> !IsSellLabel(doc, labels[j])
  {
  }

  /** The last sell label wins: later labels of other kinds do not touch the sell price. */
  lemma {:induction false} LastSellLabelWins(doc: seq<Node>, labels: seq<nat>, i: nat)
    requires InDoc(doc, labels)
    requires i < |labels| && IsSellLabel(doc, labels[i])
    requires forall j :: i < j < |labels| ==> !IsSellLabel(doc, labels[j])
    ensures Scan(doc, labels).sell == ValueAfter(doc, labels[i], SellTagQuery)
    decreases |labels|
  {
    var n := |labels| - 1;
    if i < n {
      SellSkipped(doc, labels);
      SellLabelsOfPrefix(doc, labels, i);
      LastSellLabelWins(doc, labels[..n], i);
    } else {
      StepSell(doc, labels[n], Scan(doc, labels[..n]));
    }
  }

  /** Without any buy label the buy price stays `None`. */
  lemma {:induction false} NoBuyLabel(doc: seq<Node>, labels: seq<nat>)
    requires InDoc(doc, labels)
    requires forall i :: 0 <= i < |labels| ==> !IsBuyLabel(doc, labels[i])
    ensures Scan(doc, labels).buy == None
  {
    if labels != [] {
      NoBuyLabel(doc, labels[..|labels| - 1]);
    }
  }

  /** A last label that is not a buy label leaves the buy price of the fold as it was. */
  lemma BuySkipped(doc: seq<Node>, labels: seq<nat>)
    requires InDoc(doc, labels)
    requires labels != [] && !IsBuyLabel(doc, labels[|labels| - 1])
    ensures Scan(doc, labels).buy == Scan(doc, labels[..|labels| - 1]).buy
  {
    ScanUnfolds(doc, labels);
    StepBuy(doc, labels[|labels| - 1], Scan(doc, labels[..|labels| - 1]));
  }

  /** Dropping the last label keeps the conditions of `LastBuyLabelWins` for an earlier one. */
  lemma BuyLabelsOfPrefix(doc: seq<Node>, labels: seq<nat>, i: nat)
    requires InDoc(doc, labels)
    requires i < |labels| - 1 && IsBuyLabel(doc, labels[i])
    requires forall j :: i < j < |labels| ==> !IsBuyLabel(doc, labels[j])
    ensures InDoc(doc, labels[..|labels| - 1])
    ensures IsBuyLabel(doc, labels[..|labels| - 1][i])
    ensures forall j :: i < j < |labels| - 1 ==> !IsBuyLabel(doc, labels[j])
  {
  }

  /** The last buy label wins. */
  lemma {:induction false} LastBuyLabelWins(doc: seq<Node>, labels: seq<nat>, i: nat)
    requires InDoc(doc, labels)
    requires i < |labels| && IsBuyLabel(doc, labels[i])
    requires forall j :: i < j < |labels| ==> !IsBuyLabel(doc, labels[j])
    ensures Scan(doc, labels).buy == ValueAfter(doc, labels[i], BuyTagQuery)
    decreases |labels|
  {
    var n := |labels| - 1;
    if i < n {
      BuySkipped(doc, labels);
      BuyLabelsOfPrefix(doc, labels, i);
      LastBuyLabelWins(doc, labels[..n], i);
    } else {
      StepBuy(doc, labels[n], Scan(doc, labels[..n]));
    }
  }

  /** A page without the block leaves the dictionary as it was. */
  lemma NoBlockNoChange(data: map<string, Quote>, soup: Node, blockId: string, name: string)
    requires forall x :: x in Descendants(soup) ==> !Matches(x, BlockQuery(blockId))
    ensures BlockUpdate(data, soup, blockId, name) == data
  {
  }

  /**
   * One block touches at most the entry `name`: every other entry, present
   * or absent, stays as it was; `name` itself gets a quote with two
   * non-empty prices, or keeps its old value.
   */
  lemma OnlyNameChanges(data: map<string, Quote>, soup: Node, blockId: string, name: string)
    ensures forall k :: k != name ==> (k in BlockUpdate(data, soup, blockId, name) <==> k in data)
    ensures forall k :: k != name && k in data ==> BlockUpdate(data, soup, blockId, name)[k] == data[k]
    ensures name in BlockUpdate(data, soup, blockId, name) ==>
      || (name in data && BlockUpdate(data, soup, blockId, name)[name] == data[name])
      || (BlockUpdate(data, soup, blockId, name)[name].compra != "" && BlockUpdate(data, soup, blockId, name)[name].venta != "")
  {
  }

  /**
   * `parse_data` never clears the dictionary: old entries under other keys
   * survive, and the only keys it can add are the three block names.
   */
  lemma EntriesAccumulate(data: map<string, Quote>, soup: Node)
    ensures data.Keys <= ParseDataUpdate(data, soup).Keys
    ensures ParseDataUpdate(data, soup).Keys <= data.Keys + {"Official Dollar", "Blue Dollar", "MEP Dollar"}
    ensures forall k :: k in data && k !in {"Official Dollar", "Blue Dollar", "MEP Dollar"} ==>
      ParseDataUpdate(data, soup)[k] == data[k]
  {
    var d1 := BlockUpdate(data, soup, "quotation-oficial-desktop", "Official Dollar");
    var d2 := BlockUpdate(d1, soup, "quotation-informal-desktop", "Blue Dollar");
    OnlyNameChanges(data, soup, "quotation-oficial-desktop", "Official Dollar");
    OnlyNameChanges(d1, soup, "quotation-informal-desktop", "Blue Dollar");
    OnlyNameChanges(d2, soup, "quotation-mep-desktop", "MEP Dollar");
  }
}
