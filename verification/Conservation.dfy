/** Money under the wrapping arithmetic and the prefix comparison of amountMoney. */
module Conservation {
  import opened Arithmetic
  import opened Bytes
  import opened Transactions
  import opened Blocks
  import opened Ledger

  /** Nonempty addresses, none of them the beginning of another. */
  predicate PrefixFree(A: seq<CString>) {
    && [] !in A
    && forall i, j | 0 <= i < |A| && 0 <= j < |A| && i != j :: !(A[i] <= A[j])
  }

  predicate KnownTx(A: seq<CString>, t: Transaction) {
    t.receiver in A && (t.sender == [] || t.sender in A)
  }

  predicate KnownTl(A: seq<CString>, tl: seq<Transaction>) {
    forall t | t in tl :: KnownTx(A, t)
  }

  predicate KnownChain(A: seq<CString>, c: seq<Block>) {
    forall b | b in c :: KnownTl(A, b.tl)
  }

  /** What the empty sender has paid out. */
  function MintedTl(tl: seq<Transaction>): nat {
    if tl == [] then 0 else
      var t := tl[|tl| - 1];
      MintedTl(tl[..|tl| - 1]) + if t.sender == [] then t.amount else 0
  }

  function Minted(c: seq<Block>): nat {
    if c == [] then 0 else Minted(c[..|c| - 1]) + MintedTl(c[|c| - 1].tl)
  }

  /** The sum of the true balances. */
  function TotalBalance(A: seq<CString>, c: seq<Block>): int {
    if A == [] then 0 else TotalBalance(A[..|A| - 1], c) + Balance(A[|A| - 1], c)
  }

  /** The sum of what amountMoney answers. */
  function TotalMoney(A: seq<CString>, c: seq<Block>): nat {
    if A == [] then 0 else TotalMoney(A[..|A| - 1], c) + Money(A[|A| - 1], c)
  }

  function TotalTl(A: seq<CString>, tl: seq<Transaction>): int {
    if A == [] then 0 else TotalTl(A[..|A| - 1], tl) + TlDelta(A[|A| - 1], tl)
  }

  function TotalTx(A: seq<CString>, t: Transaction): int {
    if A == [] then 0 else TotalTx(A[..|A| - 1], t) + TxDelta(A[|A| - 1], t)
  }

  /** How many addresses of A the comparison of amountMoney takes for the given one. */
  function Matches(A: seq<CString>, address: CString): nat {
    if A == [] then 0 else Matches(A[..|A| - 1], address) + if A[|A| - 1] <= address then 1 else 0
  }

  lemma {:induction false} MatchesNone(A: seq<CString>, address: CString)
    requires forall i | 0 <= i < |A| :: !(A[i] <= address)
    ensures Matches(A, address) == 0
  {
    if A != [] {
      MatchesNone(A[..|A| - 1], address);
    }
  }

  /** In a prefix-free set exactly one address is taken for a member, and none for the empty sender. */
  lemma {:induction false} MatchesOnce(A: seq<CString>, address: CString)
    requires PrefixFree(A) && (address in A || address == [])
    ensures Matches(A, address) == if address == [] then 0 else 1
  {
    if address == [] {
      MatchesNone(A, address);
    } else {
      var n := |A| - 1;
      if A[n] == address {
        MatchesNone(A[..n], address);
      } else {
        var i :| 0 <= i < |A| && A[i] == address;
        assert A[..n][i] == address && !(A[n] <= A[i]);
        MatchesOnce(A[..n], address);
      }
    }
  }

  lemma {:induction false} TotalTxByMatches(A: seq<CString>, t: Transaction)
    ensures TotalTx(A, t) == t.amount * Matches(A, t.receiver) - t.amount * Matches(A, t.sender)
  {
    if A != [] {
      TotalTxByMatches(A[..|A| - 1], t);
      OneMore(Matches(A[..|A| - 1], t.receiver), t.amount);
      OneMore(Matches(A[..|A| - 1], t.sender), t.amount);
    }
  }

  lemma {:induction false} TotalTlSnoc(A: seq<CString>, tl: seq<Transaction>)
    requires tl != []
    ensures TotalTl(A, tl) == TotalTl(A, tl[..|tl| - 1]) + TotalTx(A, tl[|tl| - 1])
  {
    if A != [] {
      TotalTlSnoc(A[..|A| - 1], tl);
    }
  }

  lemma {:induction false} TotalTlEmpty(A: seq<CString>)
    ensures TotalTl(A, []) == 0 && TotalBalance(A, []) == 0
  {
    if A != [] {
      TotalTlEmpty(A[..|A| - 1]);
    }
  }

  lemma {:induction false} TotalBalanceSnoc(A: seq<CString>, c: seq<Block>)
    requires c != []
    ensures TotalBalance(A, c) == TotalBalance(A, c[..|c| - 1]) + TotalTl(A, c[|c| - 1].tl)
  {
    if A != [] {
      TotalBalanceSnoc(A[..|A| - 1], c);
    }
  }

  lemma {:induction false} TlConserves(A: seq<CString>, tl: seq<Transaction>)
    requires PrefixFree(A) && KnownTl(A, tl)
    ensures TotalTl(A, tl) == MintedTl(tl)
  {
    if tl == [] {
      TotalTlEmpty(A);
    } else {
      var t := tl[|tl| - 1];
      assert KnownTx(A, t);
      TlConserves(A, tl[..|tl| - 1]);
      TotalTlSnoc(A, tl);
      TotalTxByMatches(A, t);
      MatchesOnce(A, t.receiver);
      MatchesOnce(A, t.sender);
    }
  }

  /** Transfers move money and never make it: the true balances add up to what was minted. */
  lemma {:induction false} BalancesConserve(A: seq<CString>, c: seq<Block>)
    requires PrefixFree(A) && KnownChain(A, c)
    ensures TotalBalance(A, c) == Minted(c)
  {
    if c == [] {
      TotalTlEmpty(A);
    } else {
      assert c[|c| - 1] in c;
      BalancesConserve(A, c[..|c| - 1]);
      TotalBalanceSnoc(A, c);
      TlConserves(A, c[|c| - 1].tl);
    }
  }

  lemma {:induction false} MoneyIsBalanceModulo(A: seq<CString>, c: seq<Block>)
    ensures TotalMoney(A, c) % U64_LIMIT == TotalBalance(A, c) % U64_LIMIT
  {
    if A != [] {
      MoneyIsBalanceModulo(A[..|A| - 1], c);
    }
  }

  /** The answers of amountMoney add up, modulo 2^64, to what the empty sender paid out. */
  lemma MoneyConserves(A: seq<CString>, c: seq<Block>)
    requires PrefixFree(A) && KnownChain(A, c)
    ensures TotalMoney(A, c) % U64_LIMIT == Minted(c) % U64_LIMIT
  {
    MoneyIsBalanceModulo(A, c);
    BalancesConserve(A, c);
  }

  /** Every address begins with the empty one, so its balance is always 0: it can only send nothing. */
  lemma {:induction false} EmptyAddressHasNothing(c: seq<Block>)
    ensures Balance([], c) == 0 && Money([], c) == 0
    ensures forall amount: U64 :: Enough([], amount, c) <==> amount == 0
  {
    if c != [] {
      EmptyAddressHasNothing(c[..|c| - 1]);
      EmptyTlDelta(c[|c| - 1].tl);
    }
  }

  lemma {:induction false} EmptyTlDelta(tl: seq<Transaction>)
    ensures TlDelta([], tl) == 0
  {
    if tl != [] {
      EmptyTlDelta(tl[..|tl| - 1]);
    }
  }

  /** Nonnegative true balances are bounded by what was minted. */
  lemma {:induction false} BalanceBelowTotal(A: seq<CString>, c: seq<Block>, a: CString)
    requires a in A && forall x | x in A :: 0 <= Balance(x, c)
    ensures Balance(a, c) <= TotalBalance(A, c)
  {
    var n := |A| - 1;
    TotalNonnegative(A[..n], c);
    if a != A[n] {
      var i :| 0 <= i < |A| && A[i] == a;
      assert A[..n][i] == a;
      BalanceBelowTotal(A[..n], c, a);
    }
  }

  lemma {:induction false} TotalNonnegative(A: seq<CString>, c: seq<Block>)
    requires forall x | x in A :: 0 <= Balance(x, c)
    ensures 0 <= TotalBalance(A, c)
  {
    if A != [] {
      TotalNonnegative(A[..|A| - 1], c);
    }
  }

  /**
   With nonnegative true balances and a mint below 2^64 no answer of amountMoney
   is a wrapped one.
   */
  lemma MoneyIsExact(A: seq<CString>, c: seq<Block>, a: CString)
    requires PrefixFree(A) && KnownChain(A, c) && Minted(c) < U64_LIMIT
    requires a in A && forall x | x in A :: 0 <= Balance(x, c)
    ensures Money(a, c) == Balance(a, c)
  {
    BalanceBelowTotal(A, c, a);
    BalancesConserve(A, c);
  }
}
