/** Printing byte counts with binary units, and reading them back. */
module PrintedSizes {
  import opened Results
  import opened Rounding

  /** "512 B", or tenths of a unit: "1.5 KiB" is fifteen tenths of unit 1. */
  datatype PrintedSize = Whole(bytes: nat) | Tenths(tenths: nat, unit: nat)

  const LAST_UNIT := 4

  /** 1, KiB, MiB, GiB, TiB */
  function UnitSize(unit: nat): nat {
    match unit
    case 0 => 1
    case 1 => 1024
    case 2 => 1048576
    case 3 => 1073741824
    case _ => 1099511627776
  }

  /** The largest unit not above the size. */
  function UnitOf(size: nat): (unit: nat)
    ensures unit <= LAST_UNIT
    ensures size > 0 ==> UnitSize(unit) <= size
    ensures unit < LAST_UNIT ==> size < UnitSize(unit + 1)
  {
    if size < UnitSize(1) then 0
    else if size < UnitSize(2) then 1
    else if size < UnitSize(3) then 2
    else if size < UnitSize(4) then 3
    else 4
  }

  /** The size to the nearest tenth of its unit, halves to the even tenth. */
  function Format(size: nat): PrintedSize {
    var unit := UnitOf(size);
    if unit == 0 then Whole(size) else Tenths(TenthsOf(size, unit), unit)
  }

  function TenthsOf(size: nat, unit: nat): (tenths: nat)
    requires UnitSize(unit) <= size
  {
    RoundedNear(10 * size, UnitSize(unit));
    RoundHalfEven(Over(10 * size, UnitSize(unit)))
  }

  method FormatBytes(sizeBytes: Option<nat>) returns (printed: PrintedSize)
    ensures printed == Format(if sizeBytes.Some? then sizeBytes.value else 0)
  {
    if sizeBytes.None? || sizeBytes.value == 0 {
      return Whole(0);
    }
    var size := sizeBytes.value as real;
    var unit := 0;
    while size >= 1024.0 && unit != LAST_UNIT
      invariant unit <= LAST_UNIT
      invariant unit > 0 ==> UnitSize(unit) <= sizeBytes.value
      invariant size == Over(sizeBytes.value, UnitSize(unit))
      decreases LAST_UNIT - unit
    {
      size := size / 1024.0;
      unit := unit + 1;
    }
    assert unit == UnitOf(sizeBytes.value);
    if unit == 0 {
      return Whole(size.Floor);
    }
    assert size * 10.0 == Over(10 * sizeBytes.value, UnitSize(unit));
    RoundedNear(10 * sizeBytes.value, UnitSize(unit));
    return Tenths(RoundHalfEven(size * 10.0), unit);
  }

  /** `int(amount * multiplier)` */
  function ParseSize(printed: PrintedSize): nat {
    match printed
    case Whole(bytes) => bytes
    case Tenths(tenths, unit) => tenths * UnitSize(unit) / 10
  }

  /** How far a printed and parsed size may be off: less than a twentieth of the unit and one byte. */
  lemma ParsedIsNear(size: nat)
    ensures var unit := UnitOf(size);
      var parsed := ParseSize(Format(size));
      if unit == 0 then parsed == size
      else 20 * size - UnitSize(unit) - 20 < 20 * parsed <= 20 * size + UnitSize(unit)
  {
    var unit := UnitOf(size);
    if unit > 0 {
      RoundedNear(10 * size, UnitSize(unit));
    }
  }

  /** A size so close below the next unit that it prints as 1024.0 of its own. */
  predicate PrintsAs1024(size: nat) {
    var unit := UnitOf(size);
    1 <= unit < LAST_UNIT && 20 * size >= 20479 * UnitSize(unit)
  }

  lemma TenthsBounds(size: nat)
    requires UnitOf(size) > 0
    ensures var unit := UnitOf(size);
      var tenths := TenthsOf(size, unit);
      10 <= tenths && (unit < LAST_UNIT ==> tenths <= 10240) && (tenths == 10240 && unit < LAST_UNIT <==> PrintsAs1024(size))
  {
    var unit := UnitOf(size);
    RoundedNear(10 * size, UnitSize(unit));
  }

  /** Reading back tenths of a unit and printing them again in the same unit gives the same tenths. */
  lemma TenthsAgain(tenths: nat, unit: nat)
    requires 1 <= unit <= LAST_UNIT
    ensures var parsed := ParseSize(Tenths(tenths, unit));
      RoundHalfEven(Over(10 * parsed, UnitSize(unit))) == tenths
  {
    RoundedIs(10 * ParseSize(Tenths(tenths, unit)), UnitSize(unit), tenths);
  }

  lemma ParsedUnit(tenths: nat, unit: nat)
    requires 1 <= unit <= LAST_UNIT && 10 <= tenths
    ensures unit == LAST_UNIT || tenths < 10240 ==> UnitOf(ParseSize(Tenths(tenths, unit))) == unit
    ensures unit < LAST_UNIT ==> ParseSize(Tenths(10240, unit)) == UnitSize(unit + 1)
  {
  }

  /** Printing a parsed print gives the same text exactly when rounding did not carry to 1024.0 of the unit. */
  lemma ReprintIff(size: nat)
    ensures Format(ParseSize(Format(size))) == Format(size) <==> !PrintsAs1024(size)
  {
    var unit := UnitOf(size);
    if unit > 0 {
      var tenths := TenthsOf(size, unit);
      TenthsBounds(size);
      ParsedUnit(tenths, unit);
      TenthsAgain(tenths, unit);
    }
  }

  /** However it prints, a size that was printed and parsed once is the same after doing so again. */
  lemma ReparseIsStable(size: nat)
    ensures var parsed := ParseSize(Format(size)); ParseSize(Format(parsed)) == parsed
  {
    ReprintIff(size);
    if PrintsAs1024(size) {
      var unit := UnitOf(size);
      TenthsBounds(size);
      ParsedUnit(10240, unit);
      TenthsOfUnit(unit + 1);
    }
  }

  lemma TenthsOfUnit(unit: nat)
    requires 1 <= unit <= LAST_UNIT
    ensures Format(UnitSize(unit)) == Tenths(10, unit)
    ensures ParseSize(Tenths(10, unit)) == UnitSize(unit)
  {
    RoundedIs(10 * UnitSize(unit), UnitSize(unit), 10);
  }

  /** A size parses back into the range of its unit, up to the next unit inclusive. */
  lemma ParsedWithin(size: nat)
    ensures var unit, parsed := UnitOf(size), ParseSize(Format(size));
      (unit > 0 ==> UnitSize(unit) <= parsed) && (unit < LAST_UNIT ==> parsed <= UnitSize(unit + 1))
  {
    if UnitOf(size) > 0 {
      TenthsBounds(size);
    }
  }

  lemma UnitsKeepOrder(u: nat, v: nat)
    requires u <= v <= LAST_UNIT
    ensures UnitSize(u) <= UnitSize(v)
  {
  }

  /** A larger size never parses back to a smaller one. */
  lemma PrintingKeepsOrder(small: nat, large: nat)
    requires small <= large
    ensures ParseSize(Format(small)) <= ParseSize(Format(large))
  {
    var u, v := UnitOf(small), UnitOf(large);
    assert u <= v;
    if u < v {
      ParsedWithin(small);
      ParsedWithin(large);
      UnitsKeepOrder(u + 1, v);
    } else if u > 0 {
      TenthsKeepOrder(small, large, u);
      ParseKeepsOrder(TenthsOf(small, u), TenthsOf(large, u), u);
    }
  }

  lemma ParseKeepsOrder(low: nat, high: nat, unit: nat)
    requires low <= high && unit <= LAST_UNIT
    ensures ParseSize(Tenths(low, unit)) <= ParseSize(Tenths(high, unit))
  {
  }

  lemma TenthsKeepOrder(small: nat, large: nat, unit: nat)
    requires small <= large && 0 < unit && UnitSize(unit) <= small
    ensures TenthsOf(small, unit) <= TenthsOf(large, unit)
  {
    OverMonotone(10 * small, 10 * large, UnitSize(unit));
    RoundHalfEvenMonotone(Over(10 * small, UnitSize(unit)), Over(10 * large, UnitSize(unit)));
  }
}
