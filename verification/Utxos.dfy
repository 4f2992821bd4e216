/** The set of unspent outputs, and the value it holds. */
module Utxos {
  import opened Types
  import opened Sums
  import opened Transactions

  type Utxo = map<OutPoint, TxOutput>

  ghost function Values(u: Utxo): map<OutPoint, int> {
    map o | o in u :: u[o].value
  }

  /** Total value of every unspent output. */
  ghost function Total(u: Utxo): int {
    Sum(u.Keys, Values(u))
  }

  lemma TotalNonNegative(u: Utxo)
    ensures Total(u) >= 0
  {
    SumNonNegative(u.Keys, Values(u));
  }

  lemma TotalEmpty()
    ensures Total(map[]) == 0
  {
  }

  lemma TotalAdd(u: Utxo, o: OutPoint, out: TxOutput)
    requires o !in u
    ensures Total(u[o := out]) == Total(u) + out.value
  {
    var u' := u[o := out];
    assert u'.Keys == u.Keys + {o};
    SumAdd(u.Keys, Values(u'), o);
    SumSame(u.Keys, Values(u), Values(u'));
  }

  lemma TotalRemove(u: Utxo, o: OutPoint)
    requires o in u
    ensures Total(u - {o}) == Total(u) - u[o].value
  {
    var u' := u - {o};
    SumRemove(u.Keys, Values(u), o);
    assert u'.Keys == u.Keys - {o};
    SumSame(u'.Keys, Values(u), Values(u'));
  }

  class UtxoSet {
    var entries: Utxo

    constructor ()
      ensures entries == map[]
    {
      entries := map[];
    }

    /** A copy of an existing set. */
    constructor Clone(entries: Utxo)
      ensures this.entries == entries
    {
      this.entries := entries;
    }

    function Get(outpoint: OutPoint): Option<TxOutput>
      reads this
    {
      if outpoint in entries then Some(entries[outpoint]) else None
    }

    /** Insert an output, returning any output it displaces. */
    method Insert(outpoint: OutPoint, output: TxOutput) returns (previous: Option<TxOutput>)
      modifies this
      ensures entries == old(entries)[outpoint := output]
      ensures previous == old(Get(outpoint))
      ensures previous.None? ==> Total(entries) == old(Total(entries)) + output.value
    {
      previous := Get(outpoint);
      if outpoint !in entries {
        TotalAdd(entries, outpoint, output);
      }
      entries := entries[outpoint := output];
    }

    /** Remove and return an output, if present. */
    method Remove(outpoint: OutPoint) returns (removed: Option<TxOutput>)
      modifies this
      ensures entries == old(entries) - {outpoint}
      ensures removed == old(Get(outpoint))
      ensures Total(entries) == old(Total(entries)) - (if removed.Some? then removed.value.value else 0)
    {
      removed := Get(outpoint);
      if outpoint in entries {
        TotalRemove(entries, outpoint);
      } else {
        assert entries - {outpoint} == entries;
      }
      entries := entries - {outpoint};
    }

    /** The sum of all values, taken in any order. */
    method TotalValue() returns (total: int)
      ensures total == Total(entries)
    {
      total := 0;
      var rest := entries.Keys;
      while rest != {}
        invariant rest <= entries.Keys
        invariant total + Sum(rest, Values(entries)) == Total(entries)
        decreases rest
      {
        var o :| o in rest;
        SumRemove(rest, Values(entries), o);
        total := total + entries[o].value;
        rest := rest - {o};
      }
    }
  }
}
