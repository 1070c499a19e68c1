/** Powers of two and the order that covers a page count. */
module Powers {

  function Pow2(n: nat): (r: nat)
    ensures r > 0
  {
    if n == 0 then 1 else 2 * Pow2(n - 1)
  }

  /** Number of significant bits: 64 minus the leading zeros of a 64-bit word. */
  function BitLength(n: nat): nat {
    if n == 0 then 0 else 1 + BitLength(n / 2)
  }

  /** `num_pages_to_order`. */
  function OrderFor(numPages: nat): nat {
    if numPages <= 1 then 0 else BitLength(numPages - 1)
  }

  /** Pages a request really occupies. */
  function Span(numPages: nat): nat {
    Pow2(OrderFor(numPages))
  }

  lemma {:induction false} BitLengthBrackets(n: nat)
    ensures n < Pow2(BitLength(n))
    ensures n > 0 ==> Pow2(BitLength(n) - 1) <= n
  {
    if n > 0 {
      BitLengthBrackets(n / 2);
      if n / 2 > 0 {
        assert Pow2(BitLength(n) - 1) == 2 * Pow2(BitLength(n / 2) - 1);
      }
    }
  }

  /** The order is the least one whose block covers the request. */
  lemma OrderIsLeast(numPages: nat)
    ensures numPages <= Span(numPages)
    ensures OrderFor(numPages) > 0 ==> Pow2(OrderFor(numPages) - 1) < numPages
  {
    if numPages > 1 {
      BitLengthBrackets(numPages - 1);
    }
  }

  lemma {:induction false} Pow2Adds(a: nat, b: nat)
    ensures Pow2(a + b) == Pow2(a) * Pow2(b)
  {
    if a > 0 {
      Pow2Adds(a - 1, b);
      assert Pow2(a + b) == 2 * Pow2(a - 1 + b);
    }
  }
}
