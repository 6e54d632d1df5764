/** Integer helpers shared by the handlers and components. */
module Numbers {

  /** `Math.ceil(total / limit)` for a positive limit. */
  function CeilDiv(total: nat, limit: nat): (r: nat)
    requires limit > 0
    ensures r * limit >= total
    ensures r == 0 || (r - 1) * limit < total
    ensures r == 0 <==> total == 0
  {
    var r := (total + limit - 1) / limit;
    assert r * limit <= total + limit - 1;
    assert r * limit > total - 1;
    r
  }

  /** `Math.ceil(a / limit)` grows with `a`. */
  lemma CeilDivMonotone(a: nat, b: nat, limit: nat)
    requires limit > 0 && a <= b
    ensures CeilDiv(a, limit) <= CeilDiv(b, limit)
  {
    var ra, rb := CeilDiv(a, limit), CeilDiv(b, limit);
    if ra > 0 {
      assert (ra - 1) * limit < rb * limit;
      ProductOrder(ra - 1, rb, limit);
    }
  }

  /** A positive factor preserves strict order backwards: `x * k < y * k` means `x < y`. */
  lemma ProductOrder(x: int, y: int, k: nat)
    requires k > 0 && x * k < y * k
    ensures x < y
  {
    assert (y - x) * k == y * k - x * k;
  }
}
