/** The two views derived from the resolver's map: FindUTXO (every unspent
    output, flattened) and FindSpendableOutputs (greedy selection up to an
    amount). Both range over a Go map, whose iteration order is unspecified;
    here the order is an explicit parameter `order` that lists each key of
    the map once, and every property holds for every such order. */
module Views {
  import opened Wrappers
  import opened Utils
  import opened LedgerTypes
  import opened Chain
  import opened Resolver

  type Utxo = map<TxId, seq<OutIndexAndData>>

  /** `order` lists every key of `keys` exactly once. */
  predicate Enumerates(order: seq<TxId>, keys: set<TxId>) {
    && (forall i, j :: 0 <= i < j < |order| ==> order[i] != order[j])
    && (forall k :: k in order ==> k in keys)
    && (forall k :: k in keys ==> k in order)
  }

  /** The iteration order fits whatever map the resolver produces. */
  predicate OrderFits(bc: Blockchain, address: seq<byte>, c: Collaborators, order: seq<TxId>) {
    FindUTXOInTransactions(bc, address, c).Success? ==>
      Enumerates(order, FindUTXOInTransactions(bc, address, c).value.Keys)
  }

  /** The map's pairs, tagged with their transaction id, in the order the
      nested `range` loops visit them. */
  function Pairs(utxo: Utxo, order: seq<TxId>): (ps: seq<(TxId, OutIndexAndData)>)
    requires forall k :: k in order ==> k in utxo
    decreases |order|
  {
    if |order| == 0 then []
    else
      var k := order[|order| - 1];
      Pairs(utxo, order[..|order| - 1]) + Tag(k, utxo[k])
  }

  function Tag(k: TxId, l: seq<OutIndexAndData>): (t: seq<(TxId, OutIndexAndData)>)
    ensures |t| == |l|
    ensures forall j :: 0 <= j < |l| ==> t[j] == (k, l[j])
  {
    seq(|l|, j requires 0 <= j < |l| => (k, l[j]))
  }

  /** Listing keys in a longer order only extends the pair sequence. */
  lemma {:induction false} PairsPrefix(utxo: Utxo, order: seq<TxId>, i: nat)
    requires forall k :: k in order ==> k in utxo
    requires i <= |order|
    ensures Pairs(utxo, order[..i]) <= Pairs(utxo, order)
    decreases |order|
  {
    if i < |order| {
      var init := order[..|order| - 1];
      assert init[..i] == order[..i];
      PairsPrefix(utxo, init, i);
    } else {
      assert order[..i] == order;
    }
  }

  /** Keys outside the order do not matter. */
  lemma {:induction false} PairsIgnoresOtherKeys(utxo: Utxo, order: seq<TxId>, k: TxId)
    requires forall x :: x in order ==> x in utxo
    requires k !in order
    ensures forall x :: x in order ==> x in utxo - {k}
    ensures Pairs(utxo, order) == Pairs(utxo - {k}, order)
    decreases |order|
  {
    if |order| > 0 {
      PairsIgnoresOtherKeys(utxo, order[..|order| - 1], k);
    }
  }

  /** Membership in the pair sequence: exactly the map's pairs. */
  lemma {:induction false} PairsMembers(utxo: Utxo, order: seq<TxId>)
    requires forall k :: k in order ==> k in utxo
    ensures forall k, p :: (k, p) in Pairs(utxo, order) <==> k in order && p in utxo[k]
    decreases |order|
  {
    if |order| > 0 {
      var init := order[..|order| - 1];
      var last := order[|order| - 1];
      PairsMembers(utxo, init);
      assert forall k :: k in order <==> k in init || k == last;
      forall k, p ensures (k, p) in Tag(last, utxo[last]) <==> k == last && p in utxo[last] {
        if (k, p) in Tag(last, utxo[last]) {
          var j :| 0 <= j < |utxo[last]| && Tag(last, utxo[last])[j] == (k, p);
        }
        if k == last && p in utxo[last] {
          var j :| 0 <= j < |utxo[last]| && utxo[last][j] == p;
          assert Tag(last, utxo[last])[j] == (k, p);
        }
      }
    }
  }

  /** The outputs of a list of pairs, as FindUTXO copies them out. */
  function Outputs(ps: seq<(TxId, OutIndexAndData)>): (outs: seq<TXOutput>)
    ensures |outs| == |ps|
    ensures forall j :: 0 <= j < |ps| ==> outs[j] == ps[j].1.out
  {
    seq(|ps|, j requires 0 <= j < |ps| => ps[j].1.out)
  }

  /** The outputs held under one key. */
  function OutputsOf(l: seq<OutIndexAndData>): multiset<TXOutput>
    decreases |l|
  {
    if |l| == 0 then multiset{} else OutputsOf(l[..|l| - 1]) + multiset{l[|l| - 1].out}
  }

  /** Every output in the map, counted with multiplicity: an
      order-independent reference for what FindUTXO must return. */
  ghost function AllOutputs(utxo: Utxo): multiset<TXOutput>
    decreases |utxo|
  {
    if utxo == map[] then multiset{}
    else
      var k :| k in utxo;
      OutputsOf(utxo[k]) + AllOutputs(utxo - {k})
  }

  /** AllOutputs may peel off any key, not just the one it happens to pick. */
  lemma {:induction false} AllOutputsRemove(utxo: Utxo, k: TxId)
    requires k in utxo
    ensures AllOutputs(utxo) == OutputsOf(utxo[k]) + AllOutputs(utxo - {k})
    decreases |utxo|
  {
    var k' :| k' in utxo && AllOutputs(utxo) == OutputsOf(utxo[k']) + AllOutputs(utxo - {k'});
    if k' != k {
      var rest := utxo - {k'} - {k};
      assert rest == utxo - {k} - {k'};
      assert (utxo - {k'}).Keys == utxo.Keys - {k'};
      assert |utxo - {k'}| < |utxo|;
      AllOutputsRemove(utxo - {k'}, k);
      assert (utxo - {k})[k'] == utxo[k'];
      assert (utxo - {k'})[k] == utxo[k];
      AllOutputsRemove(utxo - {k}, k');
      calc {
        AllOutputs(utxo);
        OutputsOf(utxo[k']) + AllOutputs(utxo - {k'});
        OutputsOf(utxo[k']) + (OutputsOf(utxo[k]) + AllOutputs(rest));
        OutputsOf(utxo[k]) + (OutputsOf(utxo[k']) + AllOutputs(rest));
        OutputsOf(utxo[k]) + AllOutputs(utxo - {k});
      }
    }
  }

  /** Tagging then projecting a key's list yields its outputs. */
  lemma {:induction false} OutputsOfTag(k: TxId, l: seq<OutIndexAndData>)
    ensures multiset(Outputs(Tag(k, l))) == OutputsOf(l)
    decreases |l|
  {
    if |l| > 0 {
      var init := l[..|l| - 1];
      OutputsOfTag(k, init);
      assert Outputs(Tag(k, l)) == Outputs(Tag(k, init)) + [l[|l| - 1].out];
    }
  }

  /** Dropping the last key of an enumeration enumerates the rest of the map. */
  lemma EnumeratesInit(utxo: Utxo, order: seq<TxId>)
    requires Enumerates(order, utxo.Keys)
    requires |order| > 0
    ensures order[|order| - 1] in utxo
    ensures Enumerates(order[..|order| - 1], (utxo - {order[|order| - 1]}).Keys)
  {
    var init := order[..|order| - 1];
    var k := order[|order| - 1];
    assert forall x :: x in order <==> x in init || x == k;
    forall i | 0 <= i < |init|
      ensures init[i] != k
    {
      assert init[i] == order[i];
    }
  }

  lemma OutputsAppend(a: seq<(TxId, OutIndexAndData)>, b: seq<(TxId, OutIndexAndData)>)
    ensures multiset(Outputs(a + b)) == multiset(Outputs(a)) + multiset(Outputs(b))
  {
    assert Outputs(a + b) == Outputs(a) + Outputs(b);
  }

  /** Flattening in any order yields every output of the map, no more and
      no fewer, with multiplicity. */
  lemma {:induction false} FlattenAnyOrder(utxo: Utxo, order: seq<TxId>)
    requires Enumerates(order, utxo.Keys)
    ensures multiset(Outputs(Pairs(utxo, order))) == AllOutputs(utxo)
    decreases |order|
  {
    if |order| == 0 {
      assert utxo.Keys == {};
      assert utxo == map[];
    } else {
      var init := order[..|order| - 1];
      var k := order[|order| - 1];
      var rest := utxo - {k};
      EnumeratesInit(utxo, order);
      PairsIgnoresOtherKeys(utxo, init, k);
      FlattenAnyOrder(rest, init);
      AllOutputsRemove(utxo, k);
      OutputsOfTag(k, utxo[k]);
      OutputsAppend(Pairs(utxo, init), Tag(k, utxo[k]));
    }
  }

  /** FindUTXO: every unspent output locked to the address, whatever order
      the Go map yields its keys in; the length is the total number of pairs. */
  function FindUTXO(bc: Blockchain, address: seq<byte>, c: Collaborators, order: seq<TxId>)
    : (r: Result<seq<TXOutput>, LedgerError>)
    requires OrderFits(bc, address, c, order)
    ensures r.Success? <==> FindUTXOInTransactions(bc, address, c).Success?
    ensures r.Success? ==> multiset(r.value) == AllOutputs(FindUTXOInTransactions(bc, address, c).value)
    ensures r.Success? ==> |r.value| == |Pairs(FindUTXOInTransactions(bc, address, c).value, order)|
  {
    match FindUTXOInTransactions(bc, address, c)
    case Failure(e) => Failure(e)
    case Success(utxo) =>
      FlattenAnyOrder(utxo, order);
      Success(Outputs(Pairs(utxo, order)))
  }

  /** The summed value of a list of pairs. */
  function SumValues(ps: seq<(TxId, OutIndexAndData)>): int
    decreases |ps|
  {
    if |ps| == 0 then 0 else SumValues(ps[..|ps| - 1]) + ps[|ps| - 1].1.out.value
  }

  /** `unspentOutputs[txId] = append(unspentOutputs[txId], i)` over a list of pairs. */
  function Group(ps: seq<(TxId, OutIndexAndData)>): map<TxId, seq<int>>
    decreases |ps|
  {
    if |ps| == 0 then map[]
    else
      var (k, p) := ps[|ps| - 1];
      var m := Group(ps[..|ps| - 1]);
      m[k := IndicesOf(m, k) + [p.i]]
  }

  /** An index is selected under a key exactly when some pair carries it. */
  lemma {:induction false} GroupMembers(ps: seq<(TxId, OutIndexAndData)>)
    ensures forall k, i :: i in IndicesOf(Group(ps), k) <==>
      exists t :: 0 <= t < |ps| && ps[t].0 == k && ps[t].1.i == i
    decreases |ps|
  {
    if |ps| > 0 {
      var init := ps[..|ps| - 1];
      GroupMembers(init);
      forall k, i ensures i in IndicesOf(Group(ps), k) <==>
        exists t :: 0 <= t < |ps| && ps[t].0 == k && ps[t].1.i == i
      {
        if exists t :: 0 <= t < |ps| && ps[t].0 == k && ps[t].1.i == i {
          var t :| 0 <= t < |ps| && ps[t].0 == k && ps[t].1.i == i;
          if t < |ps| - 1 {
            assert init[t] == ps[t];
          }
        }
        if i in IndicesOf(Group(init), k) {
          var t :| 0 <= t < |init| && init[t].0 == k && init[t].1.i == i;
          assert ps[t] == init[t];
        }
      }
    }
  }

  /** Where the greedy selection stops, searching from the m-th prefix: the
      least prefix length of at least 1 whose sum reaches `amount`, or all
      pairs when none does. */
  function CutFrom(ps: seq<(TxId, OutIndexAndData)>, amount: int, m: nat): (n: nat)
    requires 1 <= m
    ensures |ps| == 0 ==> n == 0
    ensures |ps| > 0 ==> m <= n <= |ps| || (n == |ps| && m > |ps|)
    ensures n <= |ps| || n == m
    ensures forall x :: m <= x < n ==> SumValues(ps[..x]) < amount
    ensures m <= n < |ps| ==> SumValues(ps[..n]) >= amount
    decreases |ps| - m
  {
    if m >= |ps| then |ps|
    else if SumValues(ps[..m]) >= amount then m
    else CutFrom(ps, amount, m + 1)
  }

  /** The number of pairs FindSpendableOutputs selects. */
  function Cut(ps: seq<(TxId, OutIndexAndData)>, amount: int): (n: nat)
    ensures n <= |ps|
    ensures |ps| > 0 ==> n >= 1
    ensures forall x :: 1 <= x < n ==> SumValues(ps[..x]) < amount
    ensures n < |ps| ==> SumValues(ps[..n]) >= amount
  {
    CutFrom(ps, amount, 1)
  }

  /** The conditions that the greedy loop establishes pin down Cut. */
  lemma CutUnique(ps: seq<(TxId, OutIndexAndData)>, amount: int, n: nat)
    requires n <= |ps|
    requires |ps| > 0 ==> n >= 1
    requires forall x :: 1 <= x < n ==> SumValues(ps[..x]) < amount
    requires n < |ps| ==> SumValues(ps[..n]) >= amount
    ensures n == Cut(ps, amount)
  {
    var c := Cut(ps, amount);
    if c < n {
      assert false;
    } else if n < c {
      assert false;
    }
  }

  /** Taking one more pair extends the running total and the selection. */
  lemma TakeStep(ps: seq<(TxId, OutIndexAndData)>, count: nat)
    requires count < |ps|
    ensures SumValues(ps[..count + 1]) == SumValues(ps[..count]) + ps[count].1.out.value
    ensures Group(ps[..count + 1]) ==
      var m := Group(ps[..count]); m[ps[count].0 := IndicesOf(m, ps[count].0) + [ps[count].1.i]]
  {
    assert ps[..count + 1][..count] == ps[..count];
  }

  /** The inner loop of FindSpendableOutputs over the pairs of one key,
      which occupy positions `start` onwards of the whole iteration `ps`:
      keep taking pairs until the running total reaches `amount`. */
  method TakeKey(ghost ps: seq<(TxId, OutIndexAndData)>, start: nat,
                 txId: TxId, outs: seq<OutIndexAndData>, amount: int,
                 accumulated0: int, unspentOutputs0: map<TxId, seq<int>>)
    returns (accumulated: int, unspentOutputs: map<TxId, seq<int>>, done: bool, count: nat)
    requires start + |outs| <= |ps|
    requires forall j :: 0 <= j < |outs| ==> ps[start + j] == (txId, outs[j])
    requires forall x :: 1 <= x <= start ==> SumValues(ps[..x]) < amount
    requires accumulated0 == SumValues(ps[..start])
    requires unspentOutputs0 == Group(ps[..start])
    ensures start <= count <= start + |outs|
    ensures done ==> count >= 1 && SumValues(ps[..count]) >= amount
    ensures !done ==> count == start + |outs|
    ensures forall x :: 1 <= x < count ==> SumValues(ps[..x]) < amount
    ensures !done ==> forall x :: 1 <= x <= count ==> SumValues(ps[..x]) < amount
    ensures accumulated == SumValues(ps[..count])
    ensures unspentOutputs == Group(ps[..count])
  {
    accumulated, unspentOutputs, done, count := accumulated0, unspentOutputs0, false, start;
    var j := 0;
    while j < |outs| && !done
      invariant 0 <= j <= |outs|
      invariant !done ==> count == start + j
      invariant done ==> start < count <= start + j
      invariant done ==> SumValues(ps[..count]) >= amount
      invariant forall x :: 1 <= x < count ==> SumValues(ps[..x]) < amount
      invariant !done ==> forall x :: 1 <= x <= count ==> SumValues(ps[..x]) < amount
      invariant accumulated == SumValues(ps[..count])
      invariant unspentOutputs == Group(ps[..count])
    {
      TakeStep(ps, count);
      unspentOutputs := unspentOutputs[txId := IndicesOf(unspentOutputs, txId) + [outs[j].i]];
      accumulated := accumulated + outs[j].out.value;
      count := count + 1;
      if accumulated >= amount {
        done := true;
      }
      j := j + 1;
    }
  }

  /** Where the pairs of the i-th key sit in the whole iteration. */
  lemma KeySlice(utxo: Utxo, order: seq<TxId>, i: nat)
    requires forall k :: k in order ==> k in utxo
    requires i < |order|
    ensures var start := |Pairs(utxo, order[..i])|; var outs := utxo[order[i]];
      && |Pairs(utxo, order[..i + 1])| == start + |outs|
      && start + |outs| <= |Pairs(utxo, order)|
      && forall j :: 0 <= j < |outs| ==> Pairs(utxo, order)[start + j] == (order[i], outs[j])
  {
    var ps := Pairs(utxo, order);
    PairsPrefix(utxo, order, i + 1);
    assert order[..i + 1][..i] == order[..i];
    var next := Pairs(utxo, order[..i + 1]);
    assert next == Pairs(utxo, order[..i]) + Tag(order[i], utxo[order[i]]);
    forall j | 0 <= j < |utxo[order[i]]|
      ensures ps[|Pairs(utxo, order[..i])| + j] == (order[i], utxo[order[i]][j])
    {
      assert ps[|Pairs(utxo, order[..i])| + j] == next[|Pairs(utxo, order[..i])| + j];
    }
  }

  /** The nested loops of FindSpendableOutputs over an already resolved map:
      take pairs in iteration order, adding each value, and stop as soon as
      the running total reaches `amount` (after at least one pair). */
  method Accumulate(utxo: Utxo, order: seq<TxId>, amount: int)
    returns (accumulated: int, unspentOutputs: map<TxId, seq<int>>)
    requires forall k :: k in order ==> k in utxo
    ensures accumulated == SumValues(Pairs(utxo, order)[..Cut(Pairs(utxo, order), amount)])
    ensures unspentOutputs == Group(Pairs(utxo, order)[..Cut(Pairs(utxo, order), amount)])
  {
    ghost var ps := Pairs(utxo, order);
    var count := 0;
    accumulated := 0;
    unspentOutputs := map[];
    var done := false;
    var i := 0;
    while i < |order| && !done
      invariant 0 <= i <= |order|
      invariant count <= |ps|
      invariant done ==> count >= 1 && SumValues(ps[..count]) >= amount
      invariant !done ==> count == |Pairs(utxo, order[..i])|
      invariant forall x :: 1 <= x < count ==> SumValues(ps[..x]) < amount
      invariant !done ==> forall x :: 1 <= x <= count ==> SumValues(ps[..x]) < amount
      invariant accumulated == SumValues(ps[..count])
      invariant unspentOutputs == Group(ps[..count])
      decreases |order| - i
    {
      var txId := order[i];
      var outs := utxo[txId];
      KeySlice(utxo, order, i);
      accumulated, unspentOutputs, done, count :=
        TakeKey(ps, count, txId, outs, amount, accumulated, unspentOutputs);
      i := i + 1;
    }
    if !done {
      assert order[..i] == order;
    }
    CutUnique(ps, amount, count);
  }

  /** FindSpendableOutputs: resolve the address's unspent pairs, then select
      greedily. On success the total is the summed value of the selected
      pairs, which are the first Cut pairs of the iteration. */
  method FindSpendableOutputs(bc: Blockchain, address: seq<byte>, c: Collaborators,
                              order: seq<TxId>, amount: int)
    returns (r: Result<(int, map<TxId, seq<int>>), LedgerError>)
    requires OrderFits(bc, address, c, order)
    ensures r.Success? <==> FindUTXOInTransactions(bc, address, c).Success?
    ensures r.Success? ==>
      var ps := Pairs(FindUTXOInTransactions(bc, address, c).value, order);
      && r.value.0 == SumValues(ps[..Cut(ps, amount)])
      && r.value.1 == Group(ps[..Cut(ps, amount)])
  {
    var resolved := FindUTXOInTransactions(bc, address, c);
    if resolved.Failure? {
      return Failure(resolved.error);
    }
    var accumulated, unspentOutputs := Accumulate(resolved.value, order, amount);
    return Success((accumulated, unspentOutputs));
  }

  /** Every selected index names an unspent pair of the resolver. */
  lemma SelectedAreUnspent(utxo: Utxo, order: seq<TxId>, amount: int)
    requires Enumerates(order, utxo.Keys)
    ensures var ps := Pairs(utxo, order); var sel := Group(ps[..Cut(ps, amount)]);
      forall k, i :: i in IndicesOf(sel, k) ==> k in utxo && exists p :: p in utxo[k] && p.i == i
  {
    var ps := Pairs(utxo, order);
    var sel := ps[..Cut(ps, amount)];
    GroupMembers(sel);
    PairsMembers(utxo, order);
    forall k, i | i in IndicesOf(Group(sel), k)
      ensures k in utxo && exists p :: p in utxo[k] && p.i == i
    {
      var t :| 0 <= t < |sel| && sel[t].0 == k && sel[t].1.i == i;
      assert ps[t] in ps;
    }
  }

  /** Falling short of `amount` means every unspent pair was selected. */
  lemma {:induction false} ShortfallSelectsAll(utxo: Utxo, order: seq<TxId>, amount: int)
    requires Enumerates(order, utxo.Keys)
    requires var ps := Pairs(utxo, order); SumValues(ps[..Cut(ps, amount)]) < amount
    ensures var ps := Pairs(utxo, order); var sel := Group(ps[..Cut(ps, amount)]);
      forall k, p :: k in utxo && p in utxo[k] ==> p.i in IndicesOf(sel, k)
  {
    var ps := Pairs(utxo, order);
    assert Cut(ps, amount) == |ps|;
    assert ps[..|ps|] == ps;
    GroupMembers(ps);
    PairsMembers(utxo, order);
    forall k, p | k in utxo && p in utxo[k]
      ensures p.i in IndicesOf(Group(ps), k)
    {
      assert (k, p) in ps;
      var t :| 0 <= t < |ps| && ps[t] == (k, p);
    }
  }

  /** Whenever some unspent output exists, at least one is selected, even
      for an amount of zero or less. */
  lemma SomethingSelected(utxo: Utxo, order: seq<TxId>, amount: int, k: TxId, p: OutIndexAndData)
    requires Enumerates(order, utxo.Keys)
    requires k in utxo && p in utxo[k]
    ensures var ps := Pairs(utxo, order); Group(ps[..Cut(ps, amount)]) != map[]
  {
    var ps := Pairs(utxo, order);
    PairsMembers(utxo, order);
    assert (k, p) in ps;
    var sel := ps[..Cut(ps, amount)];
    GroupMembers(sel);
    assert sel[0].1.i in IndicesOf(Group(sel), sel[0].0);
  }
}
