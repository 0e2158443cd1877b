/** The text an event hash is computed from. */
module Identity {
  import opened Digits
  import opened EventStore

  function Tail(id: Id): string { Show(id.ledger) + ":" + id.txHash + ":" + Show(id.index) }

  function Preimage(id: Id): string { id.contractId + ":" + Tail(id) }

  predicate NoColon(s: string) { ':' !in s }

  /** A text cut at its first colon determines both sides. */
  lemma {:induction false} CutAtColon(a: string, b: string, c: string, d: string)
    requires NoColon(a) && NoColon(c) && a + ":" + b == c + ":" + d
    ensures a == c && b == d
  {
    assert a + ":" + b == a + (":" + b) && c + ":" + d == c + (":" + d);
    BeforeIs(a, ":" + b, ':');
    BeforeIs(c, ":" + d, ':');
    assert (a + ":" + b)[|a| + 1..] == b && (c + ":" + d)[|c| + 1..] == d;
  }

  lemma {:induction false} ShowHasNoColon(n: nat)
    ensures NoColon(Show(n))
  {
    ReadShow(n);
  }

  /** Without colons in the contract id and the transaction hash, the preimage determines the event. */
  lemma {:induction false} PreimageInjective(a: Id, b: Id)
    requires NoColon(a.contractId) && NoColon(a.txHash) && NoColon(b.contractId) && NoColon(b.txHash)
    requires Preimage(a) == Preimage(b)
    ensures a == b
  {
    CutAtColon(a.contractId, Tail(a), b.contractId, Tail(b));
    LedgerAndRest(a.ledger, a.txHash + ":" + Show(a.index), b.ledger, b.txHash + ":" + Show(b.index), a, b);
    CutAtColon(a.txHash, Show(a.index), b.txHash, Show(b.index));
    ShowInjective(a.index, b.index);
  }

  lemma {:induction false} LedgerAndRest(m: nat, rest: string, n: nat, rest': string, a: Id, b: Id)
    requires m == a.ledger && n == b.ledger && Tail(a) == Tail(b)
    requires rest == a.txHash + ":" + Show(a.index) && rest' == b.txHash + ":" + Show(b.index)
    ensures m == n && rest == rest'
  {
    assert Tail(a) == Show(m) + ":" + rest && Tail(b) == Show(n) + ":" + rest';
    ShowHasNoColon(m);
    ShowHasNoColon(n);
    CutAtColon(Show(m), rest, Show(n), rest');
    ShowInjective(m, n);
  }

  /** The condition is needed: a colon moves a field boundary. */
  lemma {:induction false} ColonCollides(ledger: nat, index: nat, contract: string, hash: string)
    ensures var a, b := Id(contract + ":" + Show(ledger), ledger, hash, index), Id(contract, ledger, Show(ledger) + ":" + hash, index);
            a != b && Preimage(a) == Preimage(b)
  {
    var a, b := Id(contract + ":" + Show(ledger), ledger, hash, index), Id(contract, ledger, Show(ledger) + ":" + hash, index);
    assert |a.contractId| != |b.contractId| by { ReadShow(ledger); }
    var l, i := Show(ledger), Show(index);
    assert Preimage(a) == contract + ":" + l + ":" + l + ":" + hash + ":" + i;
    assert Preimage(b) == contract + ":" + l + ":" + l + ":" + hash + ":" + i;
  }
}
