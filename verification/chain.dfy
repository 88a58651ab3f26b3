/** The few chain-level notions both contracts use: addresses, bank
    transfers, and the outcomes of the payment checks of `cw_utils`. */
module Chain {
  import opened Ordering

  type Byte = b: int | 0 <= b < 256

  /** A Rust `u32`, as taken by the listing limits and the fee percentage. */
  type U32 = x: nat | x < 0x1_0000_0000

  /** An address, as the raw bytes under which it is stored as a map key. */
  type Addr = seq<Byte>

  /** Lexicographic order on byte strings: the order in which a
      cw-storage-plus `Map<&Addr, _>` range yields its keys. A proper prefix
      comes first. */
  predicate AddrLess(a: Addr, b: Addr)
    decreases |a|
  {
    |b| > 0 && (|a| == 0 || a[0] < b[0] || (a[0] == b[0] && AddrLess(a[1..], b[1..])))
  }

  lemma {:induction false} AddrLessIrreflexive(a: Addr)
    ensures !AddrLess(a, a)
    decreases |a|
  {
    if |a| > 0 {
      AddrLessIrreflexive(a[1..]);
    }
  }

  lemma {:induction false} AddrLessTransitive(a: Addr, b: Addr, c: Addr)
    requires AddrLess(a, b) && AddrLess(b, c)
    ensures AddrLess(a, c)
    decreases |a|
  {
    if |a| > 0 && a[0] == b[0] && b[0] == c[0] {
      AddrLessTransitive(a[1..], b[1..], c[1..]);
    }
  }

  lemma {:induction false} AddrLessAsymmetric(a: Addr, b: Addr)
    requires AddrLess(a, b)
    ensures !AddrLess(b, a)
    decreases |a|
  {
    if |a| > 0 && a[0] == b[0] {
      AddrLessAsymmetric(a[1..], b[1..]);
    }
  }

  lemma {:induction false} AddrLessConnected(a: Addr, b: Addr)
    requires a != b
    ensures AddrLess(a, b) || AddrLess(b, a)
    decreases |a|
  {
    if |a| > 0 && |b| > 0 && a[0] == b[0] {
      assert a == [a[0]] + a[1..] && b == [b[0]] + b[1..];
      AddrLessConnected(a[1..], b[1..]);
    }
  }

  lemma AddrLessIsStrictTotalOrder()
    ensures StrictTotalOrder(AddrLess)
  {
    forall a: Addr
      ensures !AddrLess(a, a)
    {
      AddrLessIrreflexive(a);
    }
    forall a: Addr, b: Addr, c: Addr | AddrLess(a, b) && AddrLess(b, c)
      ensures AddrLess(a, c)
    {
      AddrLessTransitive(a, b, c);
    }
    forall a: Addr, b: Addr | a != b
      ensures AddrLess(a, b) || AddrLess(b, a)
    {
      AddrLessConnected(a, b);
    }
  }

  /** A `BankMsg::Send` of one coin. */
  datatype Transfer = Send(to: Addr, amount: nat, denom: string)

  /** Outcome of `cw_utils::must_pay` against the expected denomination:
      the amount paid, or the library's rejection. */
  datatype Payment = Paid(amount: nat) | PaymentRejected(reason: string)

  /** Outcome of `cw_utils::nonpayable`: no funds attached, or the
      library's rejection. */
  datatype NonPayable = NoFundsAttached | FundsRejected(reason: string)
}
