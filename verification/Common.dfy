/** Datatypes shared by every component of the model. */
module Common {

  datatype Option<+T> = None | Some(value: T)

  /** What can become of one confirmable CoAP exchange. A request that takes effect may still
      look like a failure to its sender, because only the reply was lost; and a request that gets a
      reply may have had no effect, because the reply is a 4.xx or 5.xx. */
  datatype Exchange = Done | Rejected | RequestLost | ReplyLost {
    predicate TakesEffect() { Done? || ReplyLost? }

    predicate Answered() { Done? || Rejected? }
  }

  /** x added up n times. */
  function Times(x: real, n: nat): real {
    if n == 0 then 0.0 else Times(x, n - 1) + x
  }

  lemma {:induction false} TimesIsProduct(x: real, n: nat)
    ensures Times(x, n) == x * n as real
  {
    if n > 0 {
      TimesIsProduct(x, n - 1);
      Distribute(x, n - 1);
    }
  }

  lemma Distribute(x: real, n: nat)
    ensures x * (n + 1) as real == x * n as real + x
  {
  }

  /** Quotient and remainder are determined by what they add up to. */
  lemma PartsAreUnique(m: nat, a: nat, r: nat, b: nat, s: nat)
    requires r < m && s < m
    ensures m * a + r == m * b + s <==> a == b && r == s
  {
    if a < b {
      assert m * b >= m * (a + 1) == m * a + m;
    } else if b < a {
      assert m * a >= m * (b + 1) == m * b + m;
    }
  }

  lemma DivisionIs(n: nat, m: nat, q: nat, r: nat)
    requires n == m * q + r && r < m
    ensures n / m == q && n % m == r
  {
    assert n == m * (n / m) + n % m;
    PartsAreUnique(m, n / m, n % m, q, r);
  }
}
