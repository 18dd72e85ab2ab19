/**
 * Keepa reports monthly units sold only as the floor of a bucket ("50+ bought").
 * The tier table maps each floor to the floor of the next bucket, used as the
 * estimated ceiling of the monthly sales.
 */
module SalesTiers {

  /** `KeepaProduct.sales_tiers`, entry for entry. */
  const Tiers: map<int, int> := map[
    -1 := 0, 0 := 50, 50 := 100, 100 := 200, 200 := 300, 300 := 400, 400 := 500,
    500 := 600, 600 := 700, 700 := 800, 800 := 900, 900 := 1000,
    1000 := 2000, 2000 := 3000, 3000 := 4000, 4000 := 5000, 5000 := 6000,
    6000 := 7000, 7000 := 8000, 8000 := 9000, 9000 := 10000,
    10000 := 20000, 20000 := 30000, 30000 := 40000, 40000 := 50000,
    50000 := 60000, 60000 := 70000, 70000 := 80000, 80000 := 90000,
    90000 := 100000, 100000 := 150000
  ]

  /** The factor applied to a floor that is not in the table. */
  const Fallback: real := 1.3

  /**
   * apply_sales_tiers: -1 ("no data") gives 0, a floor in the table its ceiling,
   * anything else 1.3 times itself.
   */
  function ApplySalesTiers(x: int): (r: real)
    ensures x == -1 ==> r == 0.0
    ensures x != -1 && x in Tiers ==> r == Tiers[x] as real
    ensures x !in Tiers ==> r == x as real * Fallback
  {
    if x == -1 then 0.0
    else if x in Tiers then Tiers[x] as real
    else x as real * Fallback
  }

  /** Every non-negative floor of the table maps to a strictly larger ceiling. */
  lemma TableCeilingsAbove(k: int)
    requires k in Tiers && k >= 0
    ensures Tiers[k] > k
  {
  }

  /**
   * The estimate is never below the reported floor for a non-negative floor,
   * and strictly above it unless the floor is 0 outside the table (which cannot happen).
   */
  lemma CeilingAtLeastFloor(x: int)
    requires x >= 0
    ensures ApplySalesTiers(x) >= x as real
    ensures x > 0 ==> ApplySalesTiers(x) > x as real
  {
    if x in Tiers {
      TableCeilingsAbove(x);
    }
  }

  /** The table's floors, in order; consecutive floors are each other's ceilings. */
  const Floors: seq<int> := [
    0, 50, 100, 200, 300, 400, 500, 600, 700, 800, 900,
    1000, 2000, 3000, 4000, 5000, 6000, 7000, 8000, 9000,
    10000, 20000, 30000, 40000, 50000, 60000, 70000, 80000, 90000, 100000
  ]

  /**
   * The table is a chain of buckets: each floor's ceiling is the next floor,
   * the last floor's ceiling is 150000, and -1 maps to 0.
   */
  lemma TableIsBucketChain()
    ensures forall i :: 0 <= i < |Floors| - 1 ==> Tiers[Floors[i]] == Floors[i + 1]
    ensures Tiers[Floors[|Floors| - 1]] == 150000 && Tiers[-1] == 0
  {
    forall i | 0 <= i < |Floors| - 1 ensures Tiers[Floors[i]] == Floors[i + 1] {
      if i < 10 {
      } else if i < 20 {
      } else {
      }
    }
  }
}
