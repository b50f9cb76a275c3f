/** The wallet's coins, one for each outpoint (packages/pay/src/wallet/utxo-set.ts). */
module Coins {
  import opened Numerals

  datatype Utxo = Utxo(txid: string, vout: nat, address: string, value: nat, script: string, height: int,
      confirmed: bool)

  function KeyOf(txid: string, vout: nat): string {
    txid + ":" + Print(vout, 10)
  }

  function Key(u: Utxo): string {
    KeyOf(u.txid, u.vout)
  }

  /** The key text names one outpoint, whatever stands in the transaction id. */
  lemma {:induction false} KeyIff(a: string, m: nat, b: string, n: nat)
    ensures KeyOf(a, m) == KeyOf(b, n) <==> a == b && m == n
  {
    if KeyOf(a, m) == KeyOf(b, n) {
      LastColon(a, Print(m, 10), b, Print(n, 10));
      PrintInjective(m, n, 10);
    }
  }

  lemma {:induction false} LastColon(a: string, s: string, b: string, t: string)
    requires IsNumeral(s, 10) && IsNumeral(t, 10) && a + ":" + s == b + ":" + t
    ensures a == b && s == t
  {
    var x := a + ":" + s;
    ColonAt(a, s, x);
    ColonAt(b, t, x);
    assert |a| == |b|;
    assert a == x[..|a|] && b == x[..|b|] && s == x[|a| + 1..] && t == x[|b| + 1..];
  }

  /** The colon before a number is the last one. */
  lemma {:induction false} ColonAt(a: string, s: string, x: string)
    requires IsNumeral(s, 10) && x == a + ":" + s
    ensures |a| < |x| && x[|a|] == ':' && forall i :: |a| < i < |x| ==> x[i] != ':'
  {
    forall i | |a| < i < |x| ensures x[i] != ':' {
      assert x[i] == s[i - |a| - 1] && s[i - |a| - 1] in s;
    }
  }

  function Total(coins: seq<Utxo>): nat {
    if coins == [] then 0 else coins[0].value + Total(coins[1..])
  }

  lemma {:induction false} TotalAppend(a: seq<Utxo>, b: seq<Utxo>)
    ensures Total(a + b) == Total(a) + Total(b)
  {
    if a == [] {
      assert a + b == b;
    } else {
      assert (a + b)[1..] == a[1..] + b;
      TotalAppend(a[1..], b);
    }
  }

  lemma {:induction false} TotalSnoc(a: seq<Utxo>, u: Utxo)
    ensures Total(a + [u]) == Total(a) + u.value
  {
    TotalAppend(a, [u]);
    assert [u][1..] == [];
  }

  predicate Distinct(coins: seq<Utxo>) {
    forall i, j :: 0 <= i < j < |coins| ==> Key(coins[i]) != Key(coins[j])
  }

  predicate HasKey(coins: seq<Utxo>, key: string) {
    exists i :: 0 <= i < |coins| && Key(coins[i]) == key
  }

  /** The place of a key, or the length of the list. */
  function Place(coins: seq<Utxo>, key: string): (i: nat)
    ensures i <= |coins|
    ensures i < |coins| ==> Key(coins[i]) == key
    ensures i < |coins| <==> HasKey(coins, key)
  {
    if coins == [] then 0
    else if Key(coins[0]) == key then
      assert HasKey(coins, key);
      0
    else
      var i := Place(coins[1..], key);
      assert HasKey(coins[1..], key) ==> HasKey(coins, key) by {
        if HasKey(coins[1..], key) { assert Key(coins[i + 1]) == key; }
      }
      assert HasKey(coins, key) ==> HasKey(coins[1..], key) by {
        if k :| 0 <= k < |coins| && Key(coins[k]) == key { assert coins[1..][k - 1] == coins[k]; }
      }
      i + 1
  }

  /** `map.set(key, utxo)`: a known key keeps its place. */
  function Put(coins: seq<Utxo>, u: Utxo): seq<Utxo> {
    var i := Place(coins, Key(u));
    if i < |coins| then coins[i := u] else coins + [u]
  }

  /** The set after adding a list of coins. */
  function Collect(list: seq<Utxo>): seq<Utxo> {
    if list == [] then [] else Put(Collect(list[..|list| - 1]), list[|list| - 1])
  }

  lemma {:induction false} PutKeeps(coins: seq<Utxo>, u: Utxo)
    requires Distinct(coins)
    ensures Distinct(Put(coins, u))
    ensures forall key :: HasKey(Put(coins, u), key) <==> HasKey(coins, key) || key == Key(u)
    ensures forall c :: c in Put(coins, u) ==> c in coins || c == u
  {
    var after, i := Put(coins, u), Place(coins, Key(u));
    assert Key(after[i]) == Key(u);
    forall key | HasKey(coins, key) ensures HasKey(after, key) {
      var k :| 0 <= k < |coins| && Key(coins[k]) == key;
      assert Key(after[k]) == key;
    }
  }

  lemma {:induction false} HasKeySnoc(list: seq<Utxo>, n: nat, key: string)
    requires n < |list|
    ensures HasKey(list[..n + 1], key) <==> HasKey(list[..n], key) || key == Key(list[n])
  {
    var more := list[..n + 1];
    if k :| 0 <= k < n && Key(list[..n][k]) == key {
      assert Key(more[k]) == key;
    }
    if k :| 0 <= k < |more| && Key(more[k]) == key {
      assert k < n ==> Key(list[..n][k]) == key;
    }
    assert Key(more[n]) == Key(list[n]);
  }

  lemma {:induction false} CollectKeeps(list: seq<Utxo>)
    ensures Distinct(Collect(list))
    ensures forall key :: HasKey(Collect(list), key) <==> HasKey(list, key)
    ensures forall c :: c in Collect(list) ==> c in list
  {
    if list != [] {
      var n := |list| - 1;
      CollectKeeps(list[..n]);
      PutKeeps(Collect(list[..n]), list[n]);
      assert list[..n + 1] == list;
      forall key ensures HasKey(Collect(list), key) <==> HasKey(list, key) {
        HasKeySnoc(list, n, key);
      }
    }
  }

  class UTXOSet {
    var coins: seq<Utxo>

    constructor ()
      ensures coins == []
    {
      coins := [];
    }

    method Add(u: Utxo)
      modifies this
      ensures coins == Put(old(coins), u)
    {
      var i := Place(coins, Key(u));
      if i < |coins| {
        coins := coins[i := u];
      } else {
        coins := coins + [u];
      }
    }

    /** The loop that fills a set from a list. */
    method AddAll(list: seq<Utxo>)
      requires coins == []
      modifies this
      ensures coins == Collect(list)
    {
      for i := 0 to |list|
        invariant coins == Collect(list[..i])
      {
        assert list[..i + 1][..i] == list[..i];
        Add(list[i]);
      }
      assert list[..|list|] == list;
    }

    method GetBalance() returns (total: nat)
      ensures total == Total(coins)
    {
      total := 0;
      for i := 0 to |coins|
        invariant total == Total(coins[..i])
      {
        TotalSnoc(coins[..i], coins[i]);
        assert coins[..i + 1] == coins[..i] + [coins[i]];
        total := total + coins[i].value;
      }
      assert coins[..|coins|] == coins;
    }
  }
}
