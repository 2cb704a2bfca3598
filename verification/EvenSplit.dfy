/** Splitting a list of total members into k contiguous parts of nearly equal size. */
module EvenSplit {
  import opened Primitives
  import opened Arithmetic

  // The number of sub-rings for a ring limit of most members each.
  function Parts(total: nat, most: nat): int
    requires most > 0
  {
    if total <= most then 1 else (total + most - 1) / most
  }

  // Part i covers the positions Cut(i) to Cut(i + 1).
  function Cut(i: nat, total: nat, k: nat): int
    requires k > 0
  {
    i * total / k
  }

  lemma CutBounds(i: nat, total: nat, k: nat)
    requires k > 0 && i <= k
    ensures 0 <= Cut(i, total, k) <= total
    ensures Cut(0, total, k) == 0 && Cut(k, total, k) == total
  {
    ProductMonotone(i, total, k, total);
    DivMonotone(0, i * total, k);
    DivMonotone(i * total, k * total, k);
    DivModUnique(0, k, 0, 0);
    DivModUnique(k * total, k, total, 0);
  }

  // Each part has the rounded-down or the rounded-up average size.
  lemma PartSize(i: nat, total: nat, k: nat)
    requires k > 0
    ensures total / k <= Cut(i + 1, total, k) - Cut(i, total, k) <= total / k + 1
    ensures total % k == 0 ==> Cut(i + 1, total, k) - Cut(i, total, k) == total / k
  {
    var x, q, r := i * total, total / k, total % k;
    DivIdentity(total, k);
    DivIdentity(x, k);
    assert (i + 1) * total == x + total by { Distribute(total, i, 1); }
    Distribute(k, x / k, q);
    if x % k + r < k {
      DivModUnique(x + total, k, x / k + q, x % k + r);
    } else {
      Distribute(k, x / k + q, 1);
      DivModUnique(x + total, k, x / k + q + 1, x % k + r - k);
    }
  }

  lemma PartsBounds(total: nat, most: nat)
    requires most > 0
    ensures Parts(total, most) >= 1
    ensures total <= most * Parts(total, most)
    ensures total > most ==> Parts(total, most) >= 2 && most * (Parts(total, most) - 1) + 1 <= total
  {
    if total > most {
      var k := Parts(total, most);
      DivIdentity(total + most - 1, most);
      assert most * k + (total + most - 1) % most == total + most - 1;
      DivMonotone(2 * most, total + most - 1, most);
      DivModUnique(2 * most, most, 2, 0);
      Distribute(most, k, 1);
    }
  }

  /** No part exceeds the limit. */
  lemma PartsFit(i: nat, total: nat, most: nat)
    requires most > 0
    ensures Parts(total, most) > 0
    ensures var k := Parts(total, most); i < k ==> Cut(i + 1, total, k) - Cut(i, total, k) <= most
  {
    PartsBounds(total, most);
    var k := Parts(total, most);
    PartSize(i, total, k);
    DivIdentity(total, k);
    if total <= most {
      DivModUnique(total, 1, total, 0);
    } else if total / k > most {
      ProductMonotone(k, most + 1, k, total / k);
      Distribute(k, most, 1);
    }
  }

  /** When a split happens, every part has at least half of the limit, rounded up. */
  lemma PartsLargeEnough(i: nat, total: nat, most: nat)
    requires most > 0 && total > most
    ensures var k := Parts(total, most);
            k > 0 && Cut(i + 1, total, k) - Cut(i, total, k) >= (most + 1) / 2
  {
    PartsBounds(total, most);
    var k := Parts(total, most);
    PartSize(i, total, k);
    HalfFits(k, most, total);
    var half := (most + 1) / 2;
    DivMonotone(k * half, total, k);
    DivModUnique(k * half, k, half, 0);
  }

  lemma HalfFits(k: nat, most: nat, total: nat)
    requires k >= 2 && most > 0 && most * (k - 1) + 1 <= total
    ensures k * ((most + 1) / 2) <= total
  {
    var half := (most + 1) / 2;
    ProductMonotone(k, 2 * half, k, most + 1);
    assert 2 * (k * half) == k * (2 * half);
    assert k * (most + 1) == k * most + k;
    assert 2 * (most * (k - 1) + 1) == 2 * (most * k) - 2 * most + 2;
    ProductMonotone(k - 2, 1, k - 2, most);
    assert (k - 2) * most == k * most - 2 * most;
  }
}
