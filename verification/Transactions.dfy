/** Transactions, the text the node hashes for them, and the growable list that holds them. */
module Transactions {
  import opened Bytes
  import opened Decimal
  import opened Arithmetic

  datatype Transaction = Transaction(sender: CString, receiver: CString, amount: U64, time: Time)

  /** txsToString: "%s%s%014llu%011ld", with nothing between the fields. */
  function TxText(t: Transaction): CString {
    t.sender + t.receiver + PadDec(14, t.amount) + PadSigned(11, t.time)
  }

  function TlText(tl: seq<Transaction>): CString {
    if tl == [] then [] else TlText(tl[..|tl| - 1]) + TxText(tl[|tl| - 1])
  }

  // tlToString
  method TlToString(tl: seq<Transaction>) returns (res: CString)
    ensures res == TlText(tl)
  {
    res := [];
    for i := 0 to |tl|
      invariant res == TlText(tl[..i])
    {
      assert tl[..i + 1][..i] == tl[..i];
      res := res + TxText(tl[i]);
    }
    assert tl[..|tl|] == tl;
  }

  /** The transactions for which the text is unambiguous: both addresses len bytes long, no field overflowing. */
  predicate FixedFormat(len: nat, t: Transaction) {
    |t.sender| == len && |t.receiver| == len && t.amount < Pow10(14) && 0 <= t.time < Pow10(11)
  }

  predicate AllFixed(len: nat, tl: seq<Transaction>) {
    forall t | t in tl :: FixedFormat(len, t)
  }

  lemma TxTextLength(len: nat, t: Transaction)
    requires FixedFormat(len, t)
    ensures |TxText(t)| == 2 * len + 25
    ensures |PadDec(14, t.amount)| == 14 && |PadSigned(11, t.time)| == 11
  {
    PadDecLength(14, t.amount);
    PadDecLength(11, t.time);
  }

  /** Where the fields stand: the two addresses, 14 digits of the amount and 11 of the time. */
  lemma TxTextFields(len: nat, t: Transaction)
    requires FixedFormat(len, t)
    ensures |TxText(t)| == 2 * len + 25
    ensures TxText(t)[..len] == t.sender && TxText(t)[len..2 * len] == t.receiver
    ensures Value(TxText(t)[2 * len..2 * len + 14]) == t.amount
    ensures Value(TxText(t)[2 * len + 14..]) == t.time
  {
    hide Value;
    TxTextLength(len, t);
    var text := TxText(t);
    assert text[..len] == t.sender && text[len..2 * len] == t.receiver;
    assert text[2 * len..2 * len + 14] == PadDec(14, t.amount) && text[2 * len + 14..] == PadDec(11, t.time);
    ValueOfPadDec(14, t.amount);
    ValueOfPadDec(11, t.time);
  }

  /** Without any condition: sender, receiver, amount and time, in this order and in full. */
  lemma TxTextParts(t: Transaction, amount: CString, time: CString)
    requires amount == PadDec(14, t.amount) && time == PadSigned(11, t.time)
    ensures TxText(t) == t.sender + t.receiver + amount + time
    ensures Value(amount) == t.amount && |amount| >= 14 && (|amount| == 14 <==> t.amount < Pow10(14))
    ensures |time| >= 11
    ensures if t.time < 0 then time[0] == MINUS && Value(time[1..]) + t.time == 0 else Value(time) == t.time
  {
    hide Value, Pow10, PadDec, PadSigned;
    ValueOfPadDec(14, t.amount);
    PadDecLength(14, t.amount);
    PadSignedReads(11, t.time);
  }

  lemma TxTextInjective(len: nat, t: Transaction, u: Transaction)
    requires FixedFormat(len, t) && FixedFormat(len, u) && TxText(t) == TxText(u)
    ensures t == u
  {
    TxTextLength(len, t);
    TxTextLength(len, u);
    var a, b := TxText(t), TxText(u);
    assert t.sender == a[..len] && u.sender == b[..len];
    assert t.receiver == a[len..2 * len] && u.receiver == b[len..2 * len];
    assert PadDec(14, t.amount) == a[2 * len..2 * len + 14] && PadDec(14, u.amount) == b[2 * len..2 * len + 14];
    assert PadDec(11, t.time) == a[2 * len + 14..] && PadDec(11, u.time) == b[2 * len + 14..];
    PadDecInjective(14, t.amount, u.amount);
    PadDecInjective(11, t.time, u.time);
  }

  lemma {:induction false} TlTextLength(len: nat, tl: seq<Transaction>)
    requires AllFixed(len, tl)
    ensures |TlText(tl)| == |tl| * (2 * len + 25)
  {
    hide TxText, FixedFormat;
    if tl != [] {
      var front, last := tl[..|tl| - 1], tl[|tl| - 1];
      TlTextLength(len, front);
      TxTextLength(len, last);
      OneMore(|front|, 2 * len + 25);
    }
  }

  /** Text i of a list stands behind i others, each w = 2 * len + 25 characters long. */
  lemma {:induction false} TlTextAt(len: nat, tl: seq<Transaction>, i: nat, w: nat, at: nat)
    requires AllFixed(len, tl) && i < |tl| && w == 2 * len + 25 && at == i * w
    ensures at + w <= |TlText(tl)| && TlText(tl)[at..at + w] == TxText(tl[i])
  {
    hide TxText, FixedFormat, TlText, AllFixed;
    var n := |tl| - 1;
    var front := TlFrontLength(len, tl, w);
    if i < n {
      TlTextAt(len, tl[..n], i, w, at);
      assert TlText(tl)[at..at + w] == TlText(tl[..n])[at..at + w];
    }
  }

  lemma TlFrontLength(len: nat, tl: seq<Transaction>, w: nat) returns (front: nat)
    requires AllFixed(len, tl) && tl != [] && w == 2 * len + 25
    ensures front == |TlText(tl[..|tl| - 1])| == (|tl| - 1) * w && |TxText(tl[|tl| - 1])| == w
    ensures TlText(tl) == TlText(tl[..|tl| - 1]) + TxText(tl[|tl| - 1])
    ensures AllFixed(len, tl[..|tl| - 1])
  {
    hide TxText, FixedFormat;
    TlTextLength(len, tl[..|tl| - 1]);
    TxTextLength(len, tl[|tl| - 1]);
    front := |TlText(tl[..|tl| - 1])|;
  }

  /** The texts of a list stand one behind the other. */
  lemma {:induction false} TlTextAppends(a: seq<Transaction>, b: seq<Transaction>)
    ensures TlText(a + b) == TlText(a) + TlText(b)
  {
    hide TxText;
    if b == [] {
      assert a + b == a;
    } else {
      var n := |b| - 1;
      assert (a + b)[..|a + b| - 1] == a + b[..n];
      TlTextAppends(a, b[..n]);
      assert TlText(a + b) == TlText(a + b[..n]) + TxText(b[n]);
      assert TlText(b) == TlText(b[..n]) + TxText(b[n]);
    }
  }

  lemma TlTextOfOne(t: Transaction)
    ensures TlText([]) == [] && TlText([t]) == TxText(t)
  {
    hide TxText;
    assert [t][..0] == [];
  }

  /** The text of a list determines the list, as long as every field keeps its width. */
  lemma {:induction false} TlTextInjective(len: nat, tl: seq<Transaction>, ul: seq<Transaction>)
    requires AllFixed(len, tl) && AllFixed(len, ul) && TlText(tl) == TlText(ul)
    ensures tl == ul
  {
    hide TxText, FixedFormat;
    TlTextLength(len, tl);
    TlTextLength(len, ul);
    SameCount(|tl|, |ul|, 2 * len + 25);
    if tl != [] {
      var n := |tl| - 1;
      TlTextLength(len, tl[..n]);
      TlTextLength(len, ul[..n]);
      SplitSame(TlText(tl[..n]), TxText(tl[n]), TlText(ul[..n]), TxText(ul[n]));
      TlTextInjective(len, tl[..n], ul[..n]);
      TxTextInjective(len, tl[n], ul[n]);
      assert tl == tl[..n] + [tl[n]] && ul == ul[..n] + [ul[n]];
    }
  }

  lemma SplitSame(a: seq<Byte>, b: seq<Byte>, c: seq<Byte>, d: seq<Byte>)
    requires |a| == |c| && a + b == c + d
    ensures a == c && b == d
  {
    assert a == (a + b)[..|a|] && c == (c + d)[..|c|];
    assert b == (a + b)[|a|..] && d == (c + d)[|c|..];
  }

  lemma SameCount(m: nat, n: nat, k: nat)
    requires k > 0 && m * k == n * k
    ensures m == n
  {
    assert (m - n) * k == 0;
  }

  /** Without a fixed address length the text is ambiguous: "a" to "bc" reads like "ab" to "c". */
  lemma TxTextAmbiguous(amount: U64, time: Time)
    ensures var t := Transaction([97], [98, 99], amount, time);
            var u := Transaction([97, 98], [99], amount, time);
            t != u && TxText(t) == TxText(u)
  {
    var t, u := Transaction([97], [98, 99], amount, time), Transaction([97, 98], [99], amount, time);
    assert t.sender + t.receiver == u.sender + u.receiver;
  }

  predicate Sent(address: CString, tl: seq<Transaction>) {
    exists t | t in tl :: t.sender == address
  }

  // hasSendedTxs compares as many bytes as the longer of the two addresses has
  predicate SenderMatches(sender: CString, address: CString) {
    SameBytes(sender, address, if |address| > |sender| then |address| else |sender|)
  }

  // TxsEqual compares each address of t1 together with its terminator
  predicate TxsEqual(t1: Transaction, t2: Transaction)
    ensures TxsEqual(t1, t2) <==> t1 == t2
  {
    SameBytesPastEnd(t1.sender, t2.sender, |t1.sender| + 1);
    SameBytesPastEnd(t1.receiver, t2.receiver, |t1.receiver| + 1);
    && t1.amount == t2.amount && t1.time == t2.time
    && SameBytes(t1.sender, t2.sender, |t1.sender| + 1)
    && SameBytes(t1.receiver, t2.receiver, |t1.receiver| + 1)
  }

  /** TRANSACTIONS_LIST: an array that doubles when it is full. */
  class TransactionsList {
    var transactions: array<Transaction>
    var size: nat
    var capacity: nat

    ghost predicate Valid()
      reads this
    {
      size <= capacity == transactions.Length && 1 <= capacity
    }

    ghost function Contents(): seq<Transaction>
      requires Valid()
      reads this, transactions
    {
      transactions[..size]
    }

    // initListTxs
    constructor ()
      ensures Valid() && Contents() == [] && fresh(transactions)
    {
      transactions := new Transaction[1];
      size := 0;
      capacity := 1;
    }

    // addTx
    method Add(t: Transaction)
      requires Valid()
      modifies this, transactions
      ensures Valid() && Contents() == old(Contents()) + [t]
      ensures transactions == old(transactions) || fresh(transactions)
    {
      if size >= capacity {
        capacity := capacity * 2;
        transactions := Realloc(transactions, capacity);
      }
      transactions[size] := t;
      size := size + 1;
    }

    // hasSendedTxs
    method HasSended(address: CString) returns (found: bool)
      requires Valid()
      ensures found <==> Sent(address, Contents())
    {
      for i := 0 to size
        invariant !Sent(address, transactions[..i])
      {
        var sender := transactions[i].sender;
        SameBytesPastEnd(sender, address, if |address| > |sender| then |address| else |sender|);
        if SenderMatches(sender, address) {
          assert transactions[i] in Contents();
          return true;
        }
      }
      return false;
    }

    // a loop of addTx over part of another list
    method AddRange(other: TransactionsList, start: nat, end: nat)
      requires Valid() && other.Valid() && end <= other.size
      requires other != this && other.transactions != transactions
      modifies this, transactions
      ensures Valid() && (transactions == old(transactions) || fresh(transactions))
      ensures Contents() == old(Contents()) + if start < end then other.Contents()[start..end] else []
    {
      ghost var was, from := Contents(), other.Contents();
      var i := start;
      while i < end
        invariant start <= i && (start < end ==> i <= end)
        invariant Valid() && (transactions == old(transactions) || fresh(transactions))
        invariant other.transactions == old(other.transactions) && other.Contents() == from
        invariant Contents() == was + if start < end then from[start..i] else []
      {
        assert start < end ==> from[start..i + 1] == from[start..i] + [from[i]];
        Add(other.transactions[i]);
        i := i + 1;
      }
    }

    // removeTxsList: what stands before start and what stands from end on, which may lie past the list
    method Remove(start: nat, end: nat)
      requires Valid() && start <= size
      modifies this
      ensures Valid() && fresh(transactions)
      ensures Contents() == old(Contents()[..start] + Contents()[if end < size then end else size..])
    {
      var newTl := new TransactionsList();
      newTl.AddRange(this, 0, start);
      newTl.AddRange(this, end, size);
      transactions := newTl.transactions;
      size := newTl.size;
      capacity := newTl.capacity;
    }
  }

  // realloc to a larger block
  method Realloc(a: array<Transaction>, capacity: nat) returns (b: array<Transaction>)
    requires a.Length <= capacity
    ensures fresh(b) && b.Length == capacity && b[..a.Length] == a[..]
  {
    b := new Transaction[capacity];
    for i := 0 to a.Length
      invariant b[..i] == a[..i]
    {
      b[i] := a[i];
    }
  }
}
