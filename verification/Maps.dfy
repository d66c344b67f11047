/** The transformations of one or two literals that may produce a parameter. */
module Maps {
  import opened Decimals

  datatype Tag = PercentTag | YearsTag | MonthsTag | DaysTag | WeeksTag | QuartersTag | MoneyTag | BareTag

  /** The payment frequencies an annual rate is divided by. */
  type Frequency = f: nat | f in {2, 4, 12, 26, 52, 365} witness 12

  datatype Unary =
    | Identity
    | PercentOf
    | PerHundred
    | Cadence(perYear: Frequency)
    | PerTwelve
    | YearsTimes(perYear: Frequency)
    | MonthsToYears
    | Negate
    | PercentComplement
    | Complement
    | TimesHundred
    | TimesThousand
    | PerThousand

  /** How many one-literal maps there are. */
  const UNARY_MAPS := 22

  type MapIndex = p: nat | p < UNARY_MAPS

  /** The map table; a map's priority is its position. */
  function UnaryMap(p: MapIndex): Unary {
    match p
    case 0 => Identity case 1 => PercentOf case 2 => PerHundred case 3 => Cadence(12)
    case 4 => Cadence(2) case 5 => Cadence(4) case 6 => Cadence(52) case 7 => Cadence(26)
    case 8 => Cadence(365) case 9 => PerTwelve case 10 => YearsTimes(12) case 11 => YearsTimes(4)
    case 12 => YearsTimes(52) case 13 => YearsTimes(26) case 14 => MonthsToYears case 15 => YearsTimes(365)
    case 16 => Negate case 17 => PercentComplement case 18 => Complement case 19 => TimesHundred
    case 20 => TimesThousand case _ => PerThousand
  }

  /** Which literals a map reads. */
  predicate Applies(m: Unary, t: Tag) {
    match m
    case PercentOf | Cadence(_) | PercentComplement => t == PercentTag
    case YearsTimes(f) => t == YearsTag || (f == 12 && t == BareTag)
    case MonthsToYears => t == MonthsTag || t == BareTag
    case _ => true
  }

  function UnaryValue(m: Unary, v: real): real {
    match m
    case Identity => v
    case PercentOf | PerHundred => Ctx(v / 100.0)
    case Cadence(f) => Ctx(Ctx(v / 100.0) / f as real)
    case PerTwelve | MonthsToYears => Ctx(v / 12.0)
    case YearsTimes(f) => Ctx(v * f as real)
    case Negate => Ctx(-v)
    case PercentComplement => Ctx(1.0 - Ctx(v / 100.0))
    case Complement => Ctx(1.0 - v)
    case TimesHundred => Ctx(v * 100.0)
    case TimesThousand => Ctx(v * 1000.0)
    case PerThousand => Ctx(v / 1000.0)
  }

  /** The maps that read two literals. */
  datatype Binary = Difference | Sum | Discounted | Share | DifferenceInMonths | MonthsLess

  /** How many two-literal maps there are. */
  const BINARY_MAPS := 6

  type BinaryIndex = q: nat | q < BINARY_MAPS

  function BinaryMap(q: BinaryIndex): Binary {
    match q
    case 0 => Difference case 1 => Sum case 2 => Discounted
    case 3 => Share case 4 => DifferenceInMonths case _ => MonthsLess
  }

  predicate BinaryApplies(op: Binary, tagB: Tag) {
    op == Discounted || op == Share ==> tagB == PercentTag
  }

  function BinaryValue(op: Binary, a: real, b: real): real {
    match op
    case Difference => Ctx(a - b)
    case Sum => Ctx(a + b)
    case Discounted => Ctx(a * Ctx(1.0 - Ctx(b / 100.0)))
    case Share => Ctx(a * Ctx(b / 100.0))
    case DifferenceInMonths => Ctx(Ctx(a * 12.0) - Ctx(b * 12.0))
    case MonthsLess => Ctx(Ctx(a * 12.0) - b)
  }
}
