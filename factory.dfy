/**
 * scraper/factory.py: `DollarFactory`, which maps a dollar type to the
 * class that reads it, through a fixed class-level table.
 */
module Factory {
  import opened Wrappers
  import opened Html
  import Base
  import Oficial
  import Blue
  import Mep

  /** The three rate classes the table can name. */
  datatype DollarClass = OficialDollar | BlueDollar | MEPDollar

  /** `InvalidDollarType`, raised with its message. */
  datatype FactoryError = InvalidDollarType(message: string)

  /** `DollarFactory._dollar_classes`. */
  const DollarClasses: map<string, DollarClass> :=
    map["oficial" := OficialDollar, "informal" := BlueDollar, "mep" := MEPDollar]

  /**
   * The table has exactly three keys, each naming a different class:
   * "informal" (not "blue") selects the blue-dollar class.
   */
  lemma DollarClassesTable()
    ensures DollarClasses.Keys == {"oficial", "informal", "mep"}
    ensures DollarClasses["oficial"] == OficialDollar
    ensures DollarClasses["informal"] == BlueDollar
    ensures DollarClasses["mep"] == MEPDollar
    ensures forall a, b :: a in DollarClasses && b in DollarClasses && a != b ==> DollarClasses[a] != DollarClasses[b]
  {
  }

  /** Reference definition: the name each accepted type ends up with. */
  function RateName(dollarType: string): string
  {
    if dollarType == "informal" then "blue" else dollarType
  }

  /** `extract_from_html` of the chosen class. */
  function ExtractFromHtml(cls: DollarClass, container: Node): (r: Base.DollarRate)
    ensures cls == MEPDollar ==> r.buy == None
  {
    match cls
    case OficialDollar => Oficial.ExtractFromHtml(container)
    case BlueDollar => Blue.ExtractFromHtml(container)
    case MEPDollar => Mep.ExtractFromHtml(container)
  }

  /** `dollar_class(buy=..., sell=...)`, which only the two two-price classes accept. */
  function NewWithBoth(cls: DollarClass, buy: Option<real>, sell: Option<real>): (r: Base.DollarRate)
    requires cls != MEPDollar
    ensures r.buy == buy && r.sell == sell
  {
    match cls
    case OficialDollar => Oficial.New(buy, sell)
    case BlueDollar => Blue.New(buy, sell)
  }

  /**
   * `DollarFactory.create`. An unknown type is an error and builds nothing;
   * an absent container gives a rate without prices; otherwise the chosen
   * class reads the container.
   */
  function Create(dollarType: string, container: Option<Node>): (r: Result<Base.DollarRate, FactoryError>)
    ensures r.Err? <==> dollarType !in DollarClasses
    ensures r.Err? ==> r.error == InvalidDollarType("Invalid dollar type: " + dollarType)
    ensures r.Ok? ==> r.value.name == RateName(dollarType)
    ensures r.Ok? ==> r.value.name in {"oficial", "blue", "mep"} && r.value.name != "informal"
    ensures r.Ok? && container.None? ==> r.value.buy == None && r.value.sell == None
    ensures r.Ok? && dollarType == "mep" ==> r.value.buy == None
  {
    if dollarType !in DollarClasses then
      Err(InvalidDollarType("Invalid dollar type: " + dollarType))
    else
      var cls := DollarClasses[dollarType];
      if container.None? then
        Ok(if dollarType != "mep" then NewWithBoth(cls, None, None) else Mep.New(None))
      else
        Ok(ExtractFromHtml(cls, container.value))
  }

  /** With a container present, each accepted type is read by its own class. */
  lemma CreateDispatches(container: Node)
    ensures Create("oficial", Some(container)) == Ok(Oficial.ExtractFromHtml(container))
    ensures Create("informal", Some(container)) == Ok(Blue.ExtractFromHtml(container))
    ensures Create("mep", Some(container)) == Ok(Mep.ExtractFromHtml(container))
  {
  }

  /** Exactly three types are accepted; any other string (such as "blue") is refused. */
  lemma AcceptedTypes(dollarType: string)
    ensures Create(dollarType, None).Ok? <==> dollarType == "oficial" || dollarType == "informal" || dollarType == "mep"
  {
  }

  /** With a container present, the two prices are exactly the ones the parser reads. */
  lemma CreateReadsPrices(dollarType: string, container: Node)
    requires dollarType in DollarClasses
    ensures Create(dollarType, Some(container)).Ok?
    ensures Create(dollarType, Some(container)).value.sell == Base.ParsePrice(container, false)
    ensures Create(dollarType, Some(container)).value.buy
         == if dollarType == "mep" then None else Base.ParsePrice(container, true)
  {
  }
}
