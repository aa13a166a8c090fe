/**
 Building a transaction whose fee depends on its own size: coin selection and the fee loop of the
 two demo wallets. The size of a signed transaction is a function of its numbers of inputs and
 outputs; the two wallets are two such functions.
 */
module BitcoinWallet {
  import opened Wrappers
  import opened Runs

  datatype Utxo = Utxo(txid: string, vout: nat, value: nat)

  datatype Output = Output(address: string, value: nat)

  datatype Transaction = Transaction(inputs: seq<Utxo>, outputs: seq<Output>)

  datatype Error = InsufficientBalance(totalSpent: nat, amount: nat, fee: nat)

  const DUST_THRESHOLD := 1_000

  /** A request to send: `rate` is in millisatoshi per byte. */
  datatype Request = Request(
    ownUtxos: seq<Utxo>, ownAddress: string, dstAddress: string, amount: nat, rate: nat, size: (nat, nat) -> nat)
  {
    /** A change output makes a transaction no smaller, and a further input outweighs it. */
    ghost predicate Valid() {
      forall i: nat :: size(i, 1) <= size(i, 2) <= size(i + 1, 1)
    }

    function Fee(inputs: nat, outputs: nat): nat {
      size(inputs, outputs) * rate / 1_000
    }

    /** The UTXOs in the order in which they are spent. */
    function Oldest(): seq<Utxo> {
      Reversed(ownUtxos)
    }
  }

  function Reversed(utxos: seq<Utxo>): seq<Utxo> {
    if utxos == [] then [] else Reversed(utxos[1..]) + [utxos[0]]
  }

  function Sum(utxos: seq<Utxo>): nat {
    if utxos == [] then 0 else Sum(utxos[..|utxos| - 1]) + utxos[|utxos| - 1].value
  }

  function Paid(outputs: seq<Output>): nat {
    if outputs == [] then 0 else outputs[0].value + Paid(outputs[1..])
  }

  // ---------- Selection ----------

  /** `k` UTXOs are spent for `target`: as few as will do, but never none when there is one. */
  predicate Shortest(utxos: seq<Utxo>, target: nat, k: nat) {
    && k <= |utxos|
    && (utxos != [] ==> 0 < k)
    && (k < |utxos| ==> Sum(utxos[..k]) >= target)
    && forall j :: 0 < j < k ==> Sum(utxos[..j]) < target
  }

  function Count(utxos: seq<Utxo>, target: nat, from: nat): nat
    requires from <= |utxos|
    decreases |utxos| - from
  {
    if from == |utxos| || (from > 0 && Sum(utxos[..from]) >= target) then from else Count(utxos, target, from + 1)
  }

  lemma {:induction false} CountIsShortestFrom(utxos: seq<Utxo>, target: nat, from: nat)
    requires from <= |utxos| && forall j :: 0 < j < from ==> Sum(utxos[..j]) < target
    ensures Shortest(utxos, target, Count(utxos, target, from))
    decreases |utxos| - from
  {
    if from < |utxos| && (from == 0 || Sum(utxos[..from]) < target) {
      CountIsShortestFrom(utxos, target, from + 1);
    }
  }

  /** The number of UTXOs spent is the one shortest prefix. */
  lemma CountIsShortest(utxos: seq<Utxo>, target: nat, k: nat)
    ensures Shortest(utxos, target, k) <==> k == Count(utxos, target, 0)
  {
    CountIsShortestFrom(utxos, target, 0);
  }

  lemma {:induction false} SumGrows(utxos: seq<Utxo>, j: nat, k: nat)
    requires j <= k <= |utxos|
    ensures Sum(utxos[..j]) <= Sum(utxos[..k])
    decreases k
  {
    if j < k {
      SumGrows(utxos, j, k - 1);
      assert utxos[..k][..k - 1] == utxos[..k - 1];
    }
  }

  /** Selection falls short of its target exactly when everything does. */
  lemma ShortfallMeansTooLittle(utxos: seq<Utxo>, target: nat)
    ensures Sum(utxos[..Selected(utxos, target)]) < target <==> Sum(utxos) < target
  {
    var k := Count(utxos, target, 0);
    CountIsShortest(utxos, target, k);
    SumGrows(utxos, k, |utxos|);
    assert utxos[..|utxos|] == utxos;
  }

  function Selected(utxos: seq<Utxo>, target: nat): (k: nat)
    ensures k <= |utxos|
  {
    CountIsShortest(utxos, target, Count(utxos, target, 0));
    Count(utxos, target, 0)
  }

  /** A larger target spends an extension of what a smaller one spends. */
  lemma LargerTargetSpendsMore(utxos: seq<Utxo>, target: nat, larger: nat)
    requires target <= larger
    ensures Selected(utxos, target) <= Selected(utxos, larger)
    ensures utxos[..Selected(utxos, target)] <= utxos[..Selected(utxos, larger)]
  {
    var j, k := Selected(utxos, target), Selected(utxos, larger);
    CountIsShortest(utxos, target, j);
    CountIsShortest(utxos, larger, k);
  }

  // ---------- One transaction ----------

  function Inputs(r: Request, fee: nat): seq<Utxo> {
    r.Oldest()[..Selected(r.Oldest(), r.amount + fee)]
  }

  /** The last UTXO first, as many as there are inputs. */
  ghost predicate FromTheEnd(ownUtxos: seq<Utxo>, inputs: seq<Utxo>) {
    |inputs| <= |ownUtxos| && forall i :: 0 <= i < |inputs| ==> inputs[i] == ownUtxos[|ownUtxos| - 1 - i]
  }

  /** As few of `n` UTXOs as will do, but at least one if there is any. */
  ghost predicate AsFewAsWillDo(n: nat, target: nat, inputs: seq<Utxo>) {
    && (0 < n ==> inputs != [])
    && (|inputs| < n ==> Sum(inputs) >= target)
    && forall j :: 0 < j < |inputs| ==> Sum(inputs[..j]) < target
  }

  /** What is to be spent for `target`, in terms of the list as it came. */
  ghost predicate SpendsFromTheEnd(ownUtxos: seq<Utxo>, target: nat, inputs: seq<Utxo>) {
    FromTheEnd(ownUtxos, inputs) && AsFewAsWillDo(|ownUtxos|, target, inputs)
  }

  lemma {:induction false} ReversedAt(utxos: seq<Utxo>, i: nat)
    requires i < |utxos|
    ensures |Reversed(utxos)| == |utxos| && Reversed(utxos)[i] == utxos[|utxos| - 1 - i]
  {
    ReversedLength(utxos);
    if i < |utxos| - 1 {
      ReversedAt(utxos[1..], i);
    } else {
      ReversedLength(utxos[1..]);
    }
  }

  lemma {:induction false} ReversedLength(utxos: seq<Utxo>)
    ensures |Reversed(utxos)| == |utxos|
  {
    if utxos != [] {
      ReversedLength(utxos[1..]);
    }
  }

  lemma {:induction false} SumCons(utxos: seq<Utxo>)
    requires utxos != []
    ensures Sum(utxos) == utxos[0].value + Sum(utxos[1..])
  {
    if |utxos| > 1 {
      SumCons(utxos[..|utxos| - 1]);
      assert utxos[..|utxos| - 1][1..] == utxos[1..][..|utxos| - 2];
    }
  }

  lemma {:induction false} ReversedSum(utxos: seq<Utxo>)
    ensures Sum(Reversed(utxos)) == Sum(utxos)
  {
    if utxos != [] {
      ReversedSum(utxos[1..]);
      SumCons(utxos);
      var rest := Reversed(utxos[1..]);
      assert (rest + [utxos[0]])[..|rest|] == rest;
    }
  }

  lemma PrefixFromTheEnd(ownUtxos: seq<Utxo>, inputs: seq<Utxo>)
    ensures FromTheEnd(ownUtxos, inputs) <==> |inputs| <= |Reversed(ownUtxos)| && Reversed(ownUtxos)[..|inputs|] == inputs
  {
    ReversedLength(ownUtxos);
    forall i | 0 <= i < |ownUtxos| ensures Reversed(ownUtxos)[i] == ownUtxos[|ownUtxos| - 1 - i] {
      ReversedAt(ownUtxos, i);
    }
  }

  lemma ShortestIsFew(utxos: seq<Utxo>, target: nat, k: nat)
    requires k <= |utxos|
    ensures AsFewAsWillDo(|utxos|, target, utxos[..k]) <==> Shortest(utxos, target, k)
  {
    assert forall j :: 0 < j < k ==> utxos[..k][..j] == utxos[..j];
  }

  /** The inputs are the one such list: the UTXOs that came last are spent first. */
  lemma InputsFromTheEnd(r: Request, fee: nat, inputs: seq<Utxo>)
    ensures inputs == Inputs(r, fee) <==> SpendsFromTheEnd(r.ownUtxos, r.amount + fee, inputs)
  {
    ReversedLength(r.ownUtxos);
    PrefixFromTheEnd(r.ownUtxos, inputs);
    if |inputs| <= |r.Oldest()| {
      ShortestIsFew(r.Oldest(), r.amount + fee, |inputs|);
      CountIsShortest(r.Oldest(), r.amount + fee, |inputs|);
    }
  }

  predicate Affordable(r: Request, fee: nat) {
    Sum(Inputs(r, fee)) >= r.amount + fee
  }

  function Remaining(r: Request, fee: nat): int {
    Sum(Inputs(r, fee)) - r.amount - fee
  }

  /** `buildTransactionWithFee` */
  function Build(r: Request, fee: nat): Result<Transaction, Error> {
    if !Affordable(r, fee) then Err(InsufficientBalance(Sum(Inputs(r, fee)), r.amount, fee))
    else
      var change := if Remaining(r, fee) >= DUST_THRESHOLD then [Output(r.ownAddress, Remaining(r, fee))] else [];
      Ok(Transaction(Inputs(r, fee), [Output(r.dstAddress, r.amount)] + change))
  }

  /** No prefix of up to `i` UTXOs will do. */
  predicate TooFew(utxos: seq<Utxo>, target: nat, i: nat)
    requires i <= |utxos|
  {
    forall j :: 0 < j <= i ==> Sum(utxos[..j]) < target
  }

  lemma SumSnoc(utxos: seq<Utxo>, i: nat)
    requires i < |utxos|
    ensures utxos[..i + 1] == utxos[..i] + [utxos[i]] && Sum(utxos[..i + 1]) == Sum(utxos[..i]) + utxos[i].value
  {
    assert utxos[..i + 1][..i] == utxos[..i];
  }

  lemma TooFewSnoc(utxos: seq<Utxo>, target: nat, i: nat)
    requires i < |utxos| && TooFew(utxos, target, i) && Sum(utxos[..i + 1]) < target
    ensures TooFew(utxos, target, i + 1)
  {
  }

  lemma TooFewBefore(utxos: seq<Utxo>, target: nat, i: nat)
    requires i <= |utxos| && (i < |utxos| ==> 0 < i && Sum(utxos[..i]) >= target) && (0 < i ==> TooFew(utxos, target, i - 1))
    ensures i == Selected(utxos, target)
  {
    assert Shortest(utxos, target, i);
    CountIsShortest(utxos, target, i);
  }

  lemma SelectionEnds(r: Request, fee: nat, i: nat)
    requires var oldest, target := r.Oldest(), r.amount + fee;
             && i <= |oldest|
             && (i < |oldest| ==> 0 < i && Sum(oldest[..i]) >= target)
             && (0 < i ==> TooFew(oldest, target, i - 1))
    ensures r.Oldest()[..i] == Inputs(r, fee)
    ensures SpendsFromTheEnd(r.ownUtxos, r.amount + fee, Inputs(r, fee))
  {
    TooFewBefore(r.Oldest(), r.amount + fee, i);
    InputsFromTheEnd(r, fee, Inputs(r, fee));
  }

  method SelectUtxos(r: Request, fee: nat) returns (utxosToSpend: seq<Utxo>, totalSpent: nat)
    ensures utxosToSpend == Inputs(r, fee) && totalSpent == Sum(Inputs(r, fee))
    ensures SpendsFromTheEnd(r.ownUtxos, r.amount + fee, utxosToSpend)
  {
    var oldest := r.Oldest();
    utxosToSpend, totalSpent := [], 0;
    var i := 0;
    while i < |oldest|
      invariant 0 <= i <= |oldest|
      invariant utxosToSpend == oldest[..i] && totalSpent == Sum(oldest[..i])
      invariant TooFew(oldest, r.amount + fee, i)
    {
      SumSnoc(oldest, i);
      totalSpent := totalSpent + oldest[i].value;
      utxosToSpend := utxosToSpend + [oldest[i]];
      i := i + 1;
      if totalSpent >= r.amount + fee {
        break;
      }
      TooFewSnoc(oldest, r.amount + fee, i - 1);
    }
    SelectionEnds(r, fee, i);
  }

  method BuildTransactionWithFee(r: Request, fee: nat) returns (result: Result<Transaction, Error>)
    ensures result == Build(r, fee)
  {
    var utxosToSpend, totalSpent := SelectUtxos(r, fee);
    if totalSpent < r.amount + fee {
      return Err(InsufficientBalance(totalSpent, r.amount, fee));
    }
    var outputs := [Output(r.dstAddress, r.amount)];
    var remainingAmount := totalSpent - r.amount - fee;
    if remainingAmount >= DUST_THRESHOLD {
      outputs := outputs + [Output(r.ownAddress, remainingAmount)];
    }
    assert [Output(r.dstAddress, r.amount)] + [] == [Output(r.dstAddress, r.amount)];
    return Ok(Transaction(utxosToSpend, outputs));
  }

  /** A transaction spends its inputs on its outputs and a fee that is the one asked for, or, without
      a change output, less than the dust threshold above it. */
  lemma BuildConserves(r: Request, fee: nat)
    requires Build(r, fee).Ok?
    ensures var t := Build(r, fee).value;
            && SpendsFromTheEnd(r.ownUtxos, r.amount + fee, t.inputs)
            && |t.outputs| in {1, 2}
            && t.outputs[0] == Output(r.dstAddress, r.amount)
            && fee <= Sum(t.inputs) - Paid(t.outputs) < fee + 1_000
            && (|t.outputs| == 2 ==> Sum(t.inputs) - Paid(t.outputs) == fee &&
                                     t.outputs[1].address == r.ownAddress && t.outputs[1].value >= 1_000)
  {
    InputsFromTheEnd(r, fee, Inputs(r, fee));
    var t := Build(r, fee).value;
    assert Paid(t.outputs[1..]) == if |t.outputs| == 2 then t.outputs[1].value + Paid(t.outputs[1..][1..]) else 0;
  }

  // ---------- The fee loop ----------

  function Outs(r: Request, fee: nat): nat {
    if Remaining(r, fee) >= DUST_THRESHOLD then 2 else 1
  }

  /** The fee that the transaction built with `fee` ought to have. */
  function Next(r: Request, fee: nat): nat {
    r.Fee(|Inputs(r, fee)|, Outs(r, fee))
  }

  /** One round of `buildTransaction`: the state is `totalFee`. */
  function Round(r: Request, fee: nat): Step<nat, Result<Transaction, Error>> {
    var t := Build(r, fee);
    if t.Err? then Stop(t)
    else
      var size := r.size(|t.value.inputs|, |t.value.outputs|);
      if size * r.rate / 1_000 == fee then Stop(t) else Go(size * r.rate / 1_000)
  }

  function RoundOf(r: Request): nat -> Step<nat, Result<Transaction, Error>> {
    fee => Round(r, fee)
  }

  function Rounds(r: Request, fee: nat, n: nat): Step<nat, Result<Transaction, Error>> {
    Run(RoundOf(r), fee, n)
  }

  lemma RoundIsNext(r: Request, fee: nat)
    ensures Round(r, fee) ==
            if !Affordable(r, fee) || Next(r, fee) == fee then Stop(Build(r, fee)) else Go(Next(r, fee))
  {}

  lemma FeeGrows(a: nat, b: nat, rate: nat)
    requires a <= b
    ensures a * rate / 1_000 <= b * rate / 1_000
  {
    assert a * rate <= b * rate;
  }

  /** Fees by the shape of the transaction: change costs nothing or something, an input at least that. */
  lemma {:induction false} FeeOrder(r: Request, i: nat, j: nat)
    requires r.Valid() && i <= j
    ensures r.Fee(i, 1) <= r.Fee(i, 2)
    ensures r.Fee(i, 1) <= r.Fee(j, 1)
    ensures i < j ==> r.Fee(i, 2) <= r.Fee(j, 1)
    decreases j
  {
    FeeGrows(r.size(i, 1), r.size(i, 2), r.rate);
    if i < j {
      FeeOrder(r, i, j - 1);
      FeeGrows(r.size(j - 1, 1), r.size(j - 1, 2), r.rate);
      assert r.size(j - 1, 2) <= r.size(j - 1 + 1, 1);
      FeeGrows(r.size(j - 1, 2), r.size(j, 1), r.rate);
    }
  }

  /** A larger fee spends at least as many inputs, and with the same ones leaves less change. */
  lemma InputsGrow(r: Request, fee: nat, larger: nat)
    requires fee <= larger
    ensures |Inputs(r, fee)| <= |Inputs(r, larger)|
    ensures |Inputs(r, fee)| == |Inputs(r, larger)| ==>
              Inputs(r, fee) == Inputs(r, larger) && Outs(r, larger) <= Outs(r, fee)
  {
    LargerTargetSpendsMore(r.Oldest(), r.amount + fee, r.amount + larger);
  }

  lemma AffordableBelow(r: Request, fee: nat, larger: nat)
    requires fee <= larger && Affordable(r, larger)
    ensures Affordable(r, fee)
  {
    ShortfallMeansTooLittle(r.Oldest(), r.amount + fee);
    ShortfallMeansTooLittle(r.Oldest(), r.amount + larger);
  }

  /** Between a fee and one that its inputs still cover, the inputs are the same. */
  lemma SameInputs(r: Request, fee: nat, larger: nat)
    requires fee <= larger && Affordable(r, fee) && Sum(Inputs(r, fee)) >= r.amount + larger
    ensures Inputs(r, larger) == Inputs(r, fee) && Affordable(r, larger)
  {
    var i, k := Selected(r.Oldest(), r.amount + fee), Selected(r.Oldest(), r.amount + larger);
    CountIsShortest(r.Oldest(), r.amount + fee, i);
    CountIsShortest(r.Oldest(), r.amount + larger, k);
    InputsGrow(r, fee, larger);
    assert r.Oldest()[..i] == Inputs(r, fee);
  }

  /** The trap: with the same inputs, the fee without change leaves room for change, and the fee with
      change does not. */
  predicate Trapped(r: Request, fee: nat) {
    var i := |Inputs(r, fee)|;
    var f1, f2 := r.Fee(i, 1), r.Fee(i, 2);
    && (fee == f1 || fee == f2) && f1 < f2
    && Affordable(r, f1) && |Inputs(r, f1)| == i && Outs(r, f1) == 2
    && Affordable(r, f2) && |Inputs(r, f2)| == i && Outs(r, f2) == 1
  }

  lemma TrappedStays(r: Request, fee: nat)
    requires Trapped(r, fee)
    ensures Round(r, fee).Go? && Round(r, fee).state != fee && Trapped(r, Round(r, fee).state)
    ensures Outs(r, fee) != Outs(r, Round(r, fee).state)
    ensures Inputs(r, fee) == Inputs(r, Round(r, fee).state)
  {
    RoundIsNext(r, fee);
    var i := |Inputs(r, fee)|;
    InputsGrow(r, r.Fee(i, 1), r.Fee(i, 2));
  }

  /** Once trapped, the loop goes on for ever, with and without the change output in turn. */
  lemma {:induction false} TrappedForever(r: Request, fee: nat, n: nat)
    requires Trapped(r, fee)
    ensures Rounds(r, fee, n).Go? && Trapped(r, Rounds(r, fee, n).state)
    decreases n
  {
    if n > 0 {
      TrappedStays(r, fee);
      TrappedForever(r, Round(r, fee).state, n - 1);
    }
  }

  /** While the fee has only risen: it is no more than a fee for the inputs it now selects. */
  predicate Rising(r: Request, fee: nat) {
    Affordable(r, fee) && fee <= r.Fee(|Inputs(r, fee)|, 1)
  }

  lemma RunSplits(r: Request, fee: nat, n: nat)
    ensures Rounds(r, fee, n + 1) == if Round(r, fee).Go? then Rounds(r, Round(r, fee).state, n) else Round(r, fee)
  {}

  lemma RoundsAdd(r: Request, fee: nat, m: nat, n: nat)
    ensures Rounds(r, fee, m + n) == if Rounds(r, fee, m).Go? then Rounds(r, Rounds(r, fee, m).state, n) else Rounds(r, fee, m)
  {
    RunAdds(RoundOf(r), fee, m, n);
  }

  // After a round that keeps its inputs, at most two more decide.
  lemma SameInputsDecide(r: Request, fee: nat, n: nat)
    requires r.Valid() && Rising(r, fee) && Round(r, fee).Go?
    requires var next := Round(r, fee).state; Affordable(r, next) && |Inputs(r, next)| == |Inputs(r, fee)|
    ensures var end := Rounds(r, Round(r, fee).state, n + 2);
            end.Go? ==> Trapped(r, end.state) && TrapGuard(r, |Inputs(r, fee)|)
  {
    var i := |Inputs(r, fee)|;
    var next := Round(r, fee).state;
    var f1 := r.Fee(i, 1);
    FeeOrder(r, i, i);
    RoundIsNext(r, fee);
    RoundIsNext(r, next);
    InputsGrow(r, fee, next);
    RunSplits(r, next, n + 1);
    if Round(r, next).Go? {
      // the change output was dropped
      InputsGrow(r, fee, f1);
      InputsGrow(r, f1, next);
      RoundIsNext(r, f1);
      RunSplits(r, f1, n);
      if Round(r, f1).Go? {
        TrappedForever(r, next, n);
        TrappedMeansGuard(r, next);
      }
    }
  }

  /** From a rising fee, every round with too few inputs adds one: within as many rounds as there are
      further UTXOs, and three more, the loop has ended or is trapped. */
  lemma {:induction false} RisingDecides(r: Request, fee: nat, n: nat)
    requires r.Valid() && Rising(r, fee) && |r.Oldest()| <= |Inputs(r, fee)| + n
    ensures var end := Rounds(r, fee, n + 3); end.Go? ==> Trapped(r, end.state)
    decreases n
  {
    RoundIsNext(r, fee);
    RunSplits(r, fee, n + 2);
    if Round(r, fee).Go? {
      var i, next := |Inputs(r, fee)|, Round(r, fee).state;
      FeeOrder(r, i, i);
      InputsGrow(r, fee, next);
      if !Affordable(r, next) {
        RunSplits(r, next, n + 1);
      } else if |Inputs(r, next)| == i {
        SameInputsDecide(r, fee, n);
      } else {
        FeeOrder(r, i, |Inputs(r, next)|);
        RisingDecides(r, next, n - 1);
      }
    }
  }

  /** The number of rounds after which the loop has ended if it ever does. */
  function Bound(r: Request): nat {
    |r.ownUtxos| + 2
  }

  // Nothing to spend and nothing to pay.
  lemma NothingToSpendEnds(r: Request)
    requires r.Oldest() == []
    ensures Rounds(r, 0, 2).Stop?
  {
    RoundIsNext(r, 0);
    RunSplits(r, 0, 1);
    if Round(r, 0).Go? {
      RoundIsNext(r, Next(r, 0));
      RunSplits(r, Next(r, 0), 0);
    }
  }

  lemma BoundDecides(r: Request)
    requires r.Valid()
    ensures Rounds(r, 0, Bound(r)).Go? ==> Trapped(r, Rounds(r, 0, Bound(r)).state)
  {
    ReversedLength(r.ownUtxos);
    if r.ownUtxos == [] {
      NothingToSpendEnds(r);
    } else if Affordable(r, 0) {
      CountIsShortest(r.Oldest(), r.amount, Selected(r.Oldest(), r.amount));
      RisingDecides(r, 0, |r.ownUtxos| - 1);
    } else {
      RoundIsNext(r, 0);
      RunSplits(r, 0, Bound(r) - 1);
    }
  }

  lemma TrapGoesOn(r: Request, fee: nat, m: nat, n: nat)
    requires Rounds(r, fee, m).Go? && Trapped(r, Rounds(r, fee, m).state)
    ensures Rounds(r, fee, n).Go?
  {
    if n > m {
      RoundsAdd(r, fee, m, n - m);
      TrappedForever(r, Rounds(r, fee, m).state, n - m);
    } else {
      RoundsAdd(r, fee, n, m - n);
    }
  }

  /** The fee loop ends, with a transaction or with an error, within two rounds more than there are
      UTXOs; or it is then in the trap and never ends. */
  lemma EndsOrTrapped(r: Request)
    requires r.Valid()
    ensures Rounds(r, 0, Bound(r)).Go? <==> forall n: nat :: Rounds(r, 0, n).Go?
    ensures Rounds(r, 0, Bound(r)).Go? ==> Trapped(r, Rounds(r, 0, Bound(r)).state)
  {
    BoundDecides(r);
    if Rounds(r, 0, Bound(r)).Go? {
      forall n: nat ensures Rounds(r, 0, n).Go? {
        TrapGoesOn(r, 0, Bound(r), n);
      }
    }
  }

  /** Whether the fee loop of a request never ends. */
  predicate NeverEnds(r: Request) {
    Rounds(r, 0, Bound(r)).Go?
  }

  /** A guard on the amounts alone, for the first `i` UTXOs: they pay for change at the fee without
      it, and not at the fee with it. */
  predicate TrapGuard(r: Request, i: nat)
    requires i <= |r.Oldest()|
  {
    var f1, f2 := r.Fee(i, 1), r.Fee(i, 2);
    var left := Sum(r.Oldest()[..i]) - r.amount;
    f1 < f2 && f2 <= left && 1_000 + f1 <= left < 1_000 + f2
  }

  lemma TrappedMeansGuard(r: Request, fee: nat)
    requires Trapped(r, fee)
    ensures 0 < |Inputs(r, fee)| <= |r.Oldest()| && TrapGuard(r, |Inputs(r, fee)|)
  {
    var i := |Inputs(r, fee)|;
    assert Inputs(r, r.Fee(i, 1)) == r.Oldest()[..i] == Inputs(r, r.Fee(i, 2));
    assert r.Oldest()[..0] == [];
  }

  /** If the guard fails for every number of inputs, the loop ends. */
  lemma NoGuardEnds(r: Request)
    requires r.Valid() && forall i :: 0 < i <= |r.Oldest()| ==> !TrapGuard(r, i)
    ensures !NeverEnds(r)
  {
    EndsOrTrapped(r);
    if NeverEnds(r) {
      TrappedMeansGuard(r, Rounds(r, 0, Bound(r)).state);
      assert false;
    }
  }

  /** While fees rise, inputs whose amounts satisfy the guard are the trap. */
  lemma GuardTraps(r: Request, fee: nat)
    requires r.Valid() && Rising(r, fee) && TrapGuard(r, |Inputs(r, fee)|)
    ensures Round(r, fee).Go? && Trapped(r, Round(r, fee).state)
  {
    var i := |Inputs(r, fee)|;
    var f1, f2 := r.Fee(i, 1), r.Fee(i, 2);
    RoundIsNext(r, fee);
    InputsGrow(r, fee, f1);
    InputsGrow(r, f1, f2);
    CountIsShortest(r.Oldest(), r.amount + f2, Selected(r.Oldest(), r.amount + f2));
  }

  /** A loop that goes on for ever meets such inputs while fees rise. */
  lemma {:induction false} RisingMeetsGuard(r: Request, fee: nat, k: nat) returns (n: nat)
    requires r.Valid() && Rising(r, fee) && |r.Oldest()| <= |Inputs(r, fee)| + k && Rounds(r, fee, k + 3).Go?
    ensures n <= k && Rounds(r, fee, n).Go?
    ensures Rising(r, Rounds(r, fee, n).state) && TrapGuard(r, |Inputs(r, Rounds(r, fee, n).state)|)
    decreases k
  {
    var i, next := |Inputs(r, fee)|, Next(r, fee);
    RoundIsNext(r, fee);
    RunSplits(r, fee, k + 2);
    FeeOrder(r, i, i);
    InputsGrow(r, fee, next);
    RoundIsNext(r, next);
    RunSplits(r, next, k + 1);
    if |Inputs(r, next)| == i {
      SameInputsDecide(r, fee, k);
      n := 0;
    } else {
      FeeOrder(r, i, |Inputs(r, next)|);
      n := RisingMeetsGuard(r, next, k - 1);
      RunSplits(r, fee, n);
      n := n + 1;
    }
  }

  /** In round `n` fees still rise, and the amounts of the inputs selected satisfy the guard. */
  predicate MeetsGuard(r: Request, n: nat) {
    var now := Rounds(r, 0, n);
    now.Go? && Rising(r, now.state) && TrapGuard(r, |Inputs(r, now.state)|)
  }

  lemma NeverEndingMeetsGuard(r: Request) returns (n: nat)
    requires r.Valid() && NeverEnds(r)
    ensures MeetsGuard(r, n)
  {
    ReversedLength(r.ownUtxos);
    RoundIsNext(r, 0);
    RunSplits(r, 0, Bound(r) - 1);
    if r.ownUtxos == [] {
      NothingToSpendEnds(r);
      assert false;
    } else {
      CountIsShortest(r.Oldest(), r.amount, Selected(r.Oldest(), r.amount));
      n := RisingMeetsGuard(r, 0, |r.ownUtxos| - 1);
    }
  }

  lemma MeetingGuardNeverEnds(r: Request, n: nat)
    requires r.Valid() && MeetsGuard(r, n)
    ensures NeverEnds(r)
  {
    var fee := Rounds(r, 0, n).state;
    GuardTraps(r, fee);
    RoundsAdd(r, 0, n, 1);
    RunSplits(r, fee, 0);
    TrapGoesOn(r, 0, n + 1, Bound(r));
  }

  /** For any number of UTXOs: the loop never ends exactly if it meets the guard while fees rise. */
  lemma NeverEndsExactly(r: Request)
    requires r.Valid()
    ensures NeverEnds(r) <==> exists n: nat :: MeetsGuard(r, n)
  {
    if NeverEnds(r) {
      var n := NeverEndingMeetsGuard(r);
    }
    if n: nat :| MeetsGuard(r, n) {
      MeetingGuardNeverEnds(r, n);
    }
  }

  /** If the inputs selected for the amount alone also pay the fee with change, their amounts decide. */
  lemma FirstInputsDecide(r: Request)
    requires r.Valid() && Affordable(r, 0)
    requires var i := |Inputs(r, 0)|; Sum(Inputs(r, 0)) >= r.amount + r.Fee(i, 2)
    ensures NeverEnds(r) <==> TrapGuard(r, |Inputs(r, 0)|)
  {
    if TrapGuard(r, |Inputs(r, 0)|) {
      assert MeetsGuard(r, 0);
      NeverEndsExactly(r);
    } else {
      FirstInputsEnd(r);
      EndsOrTrapped(r);
    }
  }

  lemma FirstInputsEnd(r: Request)
    requires r.Valid() && Affordable(r, 0) && !TrapGuard(r, |Inputs(r, 0)|)
    requires var i := |Inputs(r, 0)|; Sum(Inputs(r, 0)) >= r.amount + r.Fee(i, 2)
    ensures Rounds(r, 0, 3).Stop?
  {
    var i, next := |Inputs(r, 0)|, Next(r, 0);
    RoundIsNext(r, 0);
    FeeOrder(r, i, i);
    SameInputs(r, 0, next);
    RunSplits(r, 0, 2);
    if Round(r, 0).Go? {
      SameInputsDecide(r, 0, 0);
    }
  }

  /** With a single UTXO the guard is the exact condition. */
  lemma OneUtxoNeverEnds(r: Request)
    requires r.Valid() && |r.ownUtxos| == 1
    ensures |r.Oldest()| == 1 && (NeverEnds(r) <==> TrapGuard(r, 1))
  {
    ReversedLength(r.ownUtxos);
    EndsOrTrapped(r);
    if NeverEnds(r) {
      TrappedMeansGuard(r, Rounds(r, 0, Bound(r)).state);
    }
    if TrapGuard(r, 1) {
      forall fee: nat ensures Inputs(r, fee) == r.Oldest()[..1] {
        CountIsShortest(r.Oldest(), r.amount + fee, Selected(r.Oldest(), r.amount + fee));
      }
      RoundIsNext(r, 0);
      RunSplits(r, 0, 2);
      TrappedForever(r, r.Fee(1, 2), 2);
    }
  }

  /** A loop that never ends drops the change output, with the same inputs, in some round. */
  lemma NeverEndsDropsChange(r: Request) returns (n: nat)
    requires r.Valid() && NeverEnds(r)
    ensures var now := Rounds(r, 0, n);
            && now.Go? && Round(r, now.state).Go?
            && var next := Round(r, now.state).state;
               Inputs(r, next) == Inputs(r, now.state) && Outs(r, now.state) == 2 && Outs(r, next) == 1
  {
    EndsOrTrapped(r);
    n := Bound(r);
    var fee := Rounds(r, 0, n).state;
    TrappedStays(r, fee);
    if Outs(r, fee) == 1 {
      RoundsAdd(r, 0, n, 1);
      RunSplits(r, fee, 0);
      n := n + 1;
      TrappedStays(r, Round(r, fee).state);
    }
  }

  // What a finished loop returns.
  ghost predicate Settled(r: Request, result: Result<Transaction, Error>) {
    match result
    case Ok(t) =>
      var fee := r.size(|t.inputs|, |t.outputs|) * r.rate / 1_000;
      var paid := Sum(t.inputs) - Paid(t.outputs);
      && SpendsFromTheEnd(r.ownUtxos, r.amount + fee, t.inputs)
      && |t.outputs| in {1, 2} && t.outputs[0] == Output(r.dstAddress, r.amount)
      && fee <= paid < fee + 1_000
      && (|t.outputs| == 2 ==> paid == fee && t.outputs[1].address == r.ownAddress && t.outputs[1].value >= 1_000)
    case Err(InsufficientBalance(spent, amount, fee)) =>
      amount == r.amount && spent == Sum(r.ownUtxos) < amount + fee
  }

  lemma BuiltIsSettled(r: Request, fee: nat)
    requires Build(r, fee).Ok? && Next(r, fee) == fee
    ensures Settled(r, Build(r, fee))
  {
    BuildConserves(r, fee);
  }

  lemma ErrorIsSettled(r: Request, fee: nat)
    requires Build(r, fee).Err?
    ensures Settled(r, Build(r, fee))
  {
    var k := Selected(r.Oldest(), r.amount + fee);
    CountIsShortest(r.Oldest(), r.amount + fee, k);
    assert r.Oldest()[..|r.Oldest()|] == r.Oldest();
    ReversedSum(r.ownUtxos);
  }

  /** Inputs are outputs and fee; the fee is the one for the transaction's own size, or up to the dust
      threshold above it where there is no change. An error means that all UTXOs fall short. */
  lemma EndIsSettled(r: Request, n: nat)
    requires Rounds(r, 0, n).Stop?
    ensures Settled(r, Rounds(r, 0, n).end)
  {
    var fee := StopsSomewhere(RoundOf(r), 0, n);
    RoundIsNext(r, fee);
    if Build(r, fee).Ok? {
      BuiltIsSettled(r, fee);
    } else {
      ErrorIsSettled(r, fee);
    }
  }

  // ---------- Errors for requests that could be met ----------

  /** With this fee the loop would return a transaction. */
  predicate SettlesAt(r: Request, fee: nat) {
    Affordable(r, fee) && Next(r, fee) == fee
  }

  /** A guard on the amounts alone, for the first `i` UTXOs: they pay the fee without change, up to
      less than the dust threshold, and not the fee with change. */
  predicate JumpGuard(r: Request, i: nat)
    requires i <= |r.Oldest()|
  {
    var f1, f2 := r.Fee(i, 1), r.Fee(i, 2);
    var left := Sum(r.Oldest()[..i]) - r.amount;
    f1 <= left < f2 && left < 1_000 + f1
  }

  /** In round `n` fees still rise, there is a change output, and its fee is beyond the inputs selected
      while the fee without it would settle. */
  predicate MeetsJump(r: Request, n: nat) {
    var now := Rounds(r, 0, n);
    && now.Go? && Rising(r, now.state) && Outs(r, now.state) == 2
    && JumpGuard(r, |Inputs(r, now.state)|)
  }

  /** At such a guard the fee without change settles. */
  lemma JumpedFeeSettles(r: Request, fee: nat)
    requires Rising(r, fee) && Outs(r, fee) == 2 && JumpGuard(r, |Inputs(r, fee)|)
    ensures SettlesAt(r, r.Fee(|Inputs(r, fee)|, 1))
  {
    SameInputs(r, fee, r.Fee(|Inputs(r, fee)|, 1));
  }

  lemma SettlingStops(r: Request, fee: nat, n: nat)
    requires SettlesAt(r, fee)
    ensures Rounds(r, fee, n).Stop? ==> Rounds(r, fee, n).end.Ok?
  {
    RoundIsNext(r, fee);
    if n > 0 {
      RunSplits(r, fee, n - 1);
    }
  }

  predicate Fails(s: Step<nat, Result<Transaction, Error>>) {
    s.Stop? && s.end.Err?
  }

  // After a round that keeps its inputs the loop does not fail any more.
  lemma SameInputsSucceed(r: Request, fee: nat, n: nat)
    requires r.Valid() && Rising(r, fee) && Round(r, fee).Go?
    requires var next := Round(r, fee).state; Affordable(r, next) && |Inputs(r, next)| == |Inputs(r, fee)|
    ensures !Fails(Rounds(r, Round(r, fee).state, n))
  {
    var i, next := |Inputs(r, fee)|, Round(r, fee).state;
    var f1 := r.Fee(i, 1);
    FeeOrder(r, i, i);
    RoundIsNext(r, fee);
    RoundIsNext(r, next);
    InputsGrow(r, fee, next);
    if Next(r, next) == next {
      SettlingStops(r, next, n);
    } else {
      InputsGrow(r, fee, f1);
      InputsGrow(r, f1, next);
      AffordableBelow(r, f1, next);
      if Outs(r, f1) == 1 {
        if n > 0 {
          RunSplits(r, next, n - 1);
          SettlingStops(r, f1, n - 1);
        }
      } else {
        TrappedForever(r, next, n);
      }
    }
  }

  // Where the fee that settles has the inputs of a rising fee.
  lemma MissedWithSameInputs(r: Request, fee: nat, best: nat, n: nat)
    requires r.Valid() && Rising(r, fee) && SettlesAt(r, best) && fee < best && Fails(Rounds(r, fee, n + 1))
    requires |Inputs(r, fee)| == |Inputs(r, best)|
    ensures Outs(r, fee) == 2 && JumpGuard(r, |Inputs(r, fee)|)
  {
    var i, next := |Inputs(r, fee)|, Next(r, fee);
    RoundIsNext(r, fee);
    RunSplits(r, fee, n);
    InputsGrow(r, fee, best);
    if next == best {
      SettlingStops(r, best, n);
      assert false;
    } else {
      FeeOrder(r, i, i);
      if Sum(Inputs(r, fee)) >= r.amount + next {
        SameInputs(r, fee, next);
        SameInputsSucceed(r, fee, n);
        assert false;
      }
    }
  }

  // Where the fee that settles has more inputs, a round does not go beyond it.
  lemma NextStaysBelow(r: Request, fee: nat, best: nat)
    requires r.Valid() && Rising(r, fee) && SettlesAt(r, best) && |Inputs(r, fee)| < |Inputs(r, best)|
    ensures fee <= Next(r, fee) <= best && Affordable(r, Next(r, fee))
    ensures |Inputs(r, Next(r, fee))| != |Inputs(r, fee)| ==> Rising(r, Next(r, fee))
  {
    var i, j, next := |Inputs(r, fee)|, |Inputs(r, best)|, Next(r, fee);
    FeeOrder(r, i, j);
    FeeOrder(r, i, i);
    FeeOrder(r, j, j);
    AffordableBelow(r, next, best);
    InputsGrow(r, fee, next);
    FeeOrder(r, i, |Inputs(r, next)|);
  }

  /** A failing loop that starts below a fee that settles jumps over it. */
  lemma {:induction false} FailingJumps(r: Request, fee: nat, best: nat, n: nat) returns (k: nat)
    requires r.Valid() && Rising(r, fee) && SettlesAt(r, best) && fee <= best && Fails(Rounds(r, fee, n))
    ensures var now := Rounds(r, fee, k);
            now.Go? && Rising(r, now.state) && Outs(r, now.state) == 2 && JumpGuard(r, |Inputs(r, now.state)|)
    decreases n
  {
    SettlingStops(r, best, n);
    RoundIsNext(r, fee);
    RunSplits(r, fee, n - 1);
    var i, j, next := |Inputs(r, fee)|, |Inputs(r, best)|, Next(r, fee);
    InputsGrow(r, fee, best);
    if i == j {
      MissedWithSameInputs(r, fee, best, n - 1);
      k := 0;
    } else {
      NextStaysBelow(r, fee, best);
      if |Inputs(r, next)| == i {
        SameInputsSucceed(r, fee, n - 1);
        assert false;
      } else {
        k := FailingJumps(r, next, best, n - 1);
        RunSplits(r, fee, k);
        k := k + 1;
      }
    }
  }

  /** For any number of UTXOs: where the loop ends in the error, some fee would have settled exactly if
      the loop jumped over it in some round. */
  lemma NeedlessErrorExactly(r: Request)
    requires r.Valid() && Fails(Rounds(r, 0, Bound(r)))
    ensures (exists fee: nat :: SettlesAt(r, fee)) <==> exists n: nat :: MeetsJump(r, n)
  {
    if best: nat :| SettlesAt(r, best) {
      AffordableBelow(r, 0, best);
      var n := FailingJumps(r, 0, best, Bound(r));
      assert MeetsJump(r, n);
    }
    if n: nat :| MeetsJump(r, n) {
      JumpedFeeSettles(r, Rounds(r, 0, n).state);
    }
  }

  lemma OneUtxoInputs(r: Request, fee: nat)
    requires |r.Oldest()| == 1
    ensures Inputs(r, fee) == r.Oldest()[..1] == r.Oldest()
  {
    CountIsShortest(r.Oldest(), r.amount + fee, Selected(r.Oldest(), r.amount + fee));
  }

  /** The change that a single UTXO leaves before any fee reaches the dust threshold, and the guard. */
  predicate OneUtxoJumps(r: Request)
    requires |r.Oldest()| == 1
  {
    Sum(r.Oldest()[..1]) - r.amount >= 1_000 && JumpGuard(r, 1)
  }

  lemma OneUtxoMeetsJump(r: Request, n: nat)
    requires |r.Oldest()| == 1 && MeetsJump(r, n)
    ensures OneUtxoJumps(r)
  {
    OneUtxoInputs(r, Rounds(r, 0, n).state);
  }

  lemma OneUtxoJumpFails(r: Request)
    requires |r.Oldest()| == 1 && OneUtxoJumps(r)
    ensures MeetsJump(r, 0) && Fails(Rounds(r, 0, 2))
  {
    var f2 := r.Fee(1, 2);
    OneUtxoInputs(r, 0);
    OneUtxoInputs(r, f2);
    RoundIsNext(r, 0);
    RoundIsNext(r, f2);
    RunSplits(r, 0, 1);
    RunSplits(r, f2, 0);
  }

  lemma MoreRoundsFail(r: Request, m: nat, n: nat)
    requires Fails(Rounds(r, 0, m))
    ensures Fails(Rounds(r, 0, m + n))
  {
    RoundsAdd(r, 0, m, n);
  }

  /** With a single UTXO: the error is returned although a fee would settle if and only if there is
      room for change before any fee, and the UTXO pays the fee without change, up to less than the
      dust threshold, and not the fee with change. */
  lemma OneUtxoNeedlessError(r: Request)
    requires r.Valid() && |r.ownUtxos| == 1
    ensures |r.Oldest()| == 1
    ensures (Fails(Rounds(r, 0, Bound(r))) && exists fee: nat :: SettlesAt(r, fee)) <==> OneUtxoJumps(r)
  {
    ReversedLength(r.ownUtxos);
    if Fails(Rounds(r, 0, Bound(r))) {
      NeedlessErrorExactly(r);
      if n: nat :| MeetsJump(r, n) {
        OneUtxoMeetsJump(r, n);
      }
    }
    if OneUtxoJumps(r) {
      OneUtxoJumpFails(r);
      MoreRoundsFail(r, 2, 1);
      JumpedFeeSettles(r, 0);
    }
  }

  /** One UTXO of 120,000 satoshi, of which 100,000 are to be sent at 100 satoshi per byte. */
  function Refused(): Request {
    Request([Utxo("", 0, 120_000)], "", "", 100_000, 100_000, (i: nat, o: nat) => 10 + 148 * i + 34 * o)
  }

  /** A fee of 19,200 settles without change; the loop fails at the 22,600 that change would cost. */
  lemma RefusedNeedlessly()
    ensures Refused().Valid() && SettlesAt(Refused(), 19_200)
    ensures Rounds(Refused(), 0, Bound(Refused())) == Stop(Err(InsufficientBalance(120_000, 100_000, 22_600)))
  {
    var r := Refused();
    assert r.Oldest() == r.ownUtxos;
    assert Sum(r.Oldest()) == 120_000;
    assert r.Fee(1, 1) == 19_200 && r.Fee(1, 2) == 22_600;
    OneUtxoInputs(r, 0);
    OneUtxoInputs(r, 19_200);
    OneUtxoInputs(r, 22_600);
    RoundIsNext(r, 0);
    RoundIsNext(r, 22_600);
    RunSplits(r, 0, 2);
    RunSplits(r, 22_600, 1);
  }

  // ---------- The loop ----------

  /** `buildTransaction`, for at most `limit` rounds of its loop. */
  method BuildTransaction(r: Request, limit: nat) returns (result: Step<nat, Result<Transaction, Error>>)
    ensures result == Rounds(r, 0, limit)
    ensures result.Stop? ==> Settled(r, result.end)
  {
    var totalFee: nat := 0;
    var left := limit;
    while left > 0
      invariant Rounds(r, totalFee, left) == Rounds(r, 0, limit)
    {
      RunSplits(r, totalFee, left - 1);
      var transaction := BuildTransactionWithFee(r, totalFee);
      if transaction.Err? {
        EndIsSettled(r, limit);
        return Stop(transaction);
      }
      var signedTxBytesLen := r.size(|transaction.value.inputs|, |transaction.value.outputs|);
      if signedTxBytesLen * r.rate / 1_000 == totalFee {
        EndIsSettled(r, limit);
        return Stop(transaction);
      } else {
        totalFee := signedTxBytesLen * r.rate / 1_000;
      }
      left := left - 1;
    }
    return Go(totalFee);
  }
}
