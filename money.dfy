/**
 * Exact decimal amounts as scaled integers.
 *
 * A quantity (agreed_quantity, quantity_available) is a count of thousandths,
 * a price or a total (price_per_unit, total_value, amount) a count of
 * hundredths.  The product of a quantity and a price is then an exact count of
 * hundred-thousandths, and storing it in a two-decimal column is a separate
 * rounding step, `QuantizeCents`.
 */
module Money {
  /** Hundred-thousandths per hundredth: the factor a quantity-times-price product carries over a money amount. */
  const ProductPerCent: int := 1000

  /**
   * Rounds an amount in hundred-thousandths to hundredths, to the nearest
   * value and halves to the even neighbour: what quantizing a Decimal to two
   * places under Python's default decimal context does.
   */
  function QuantizeCents(x: int): (c: int)
    ensures -500 <= x - c * ProductPerCent <= 500
    ensures (x - c * ProductPerCent == 500 || x - c * ProductPerCent == -500) ==> c % 2 == 0
    ensures x % ProductPerCent == 0 ==> c * ProductPerCent == x
  {
    var q := x / ProductPerCent;
    var rem := x % ProductPerCent;
    if rem < 500 then q
    else if rem > 500 then q + 1
    else if q % 2 == 0 then q
    else q + 1
  }

  /**
   * The total stored for `qty` thousandths at `ppu` hundredths per unit:
   * the exact product, quantized to the column's two decimal places.
   */
  function TotalValue(qty: int, ppu: int): (t: int)
    ensures -500 <= qty * ppu - t * ProductPerCent <= 500
  {
    QuantizeCents(qty * ppu)
  }

  /** A whole-unit quantity times a price has no digits below the cent, so its total is exact. */
  lemma WholeQuantityTotalIsExact(qty: int, ppu: int)
    requires qty % ProductPerCent == 0
    ensures TotalValue(qty, ppu) == (qty / ProductPerCent) * ppu
  {
    var k := qty / ProductPerCent;
    assert qty == k * ProductPerCent;
    assert qty * ppu == (k * ppu) * ProductPerCent;
    var c := QuantizeCents(qty * ppu);
    assert (qty * ppu) % ProductPerCent == 0;
    assert c * ProductPerCent == (k * ppu) * ProductPerCent;
  }

  /** Quantizing an amount that already has two decimals gives it back unchanged. */
  lemma {:induction false} QuantizeCentsRoundTrip(c: int)
    ensures QuantizeCents(c * ProductPerCent) == c
  {
    assert (c * ProductPerCent) % ProductPerCent == 0;
  }
}
