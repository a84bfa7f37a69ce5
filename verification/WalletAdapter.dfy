/** The packaged wallet adapter (src/standard-wallet-adapter.js): a durable store of operation records
    that makes preparation and submission repeatable. What clocks, providers, wallets and the disk answer
    during a call is an input of it; the process may stop between a send and the record of it. */
module WalletAdapter {
  import opened Wrappers
  import opened RunnerState
  import opened Wallet

  datatype PrepareReply = PrepareReply(terms: Terms, maximum: nat)

  /** Whether the window is open and chain and account are the request's; then what the node reports, and
      whether the record reaches the disk. */
  datatype EvmAnswers = EvmAnswers(open: bool, connected: bool, estimate: nat, gasPrice: nat, nonce: nat, written: bool)

  datatype SolanaAnswers = SolanaAnswers(open: bool, connected: bool, blockhash: nat, simulated: bool, feeKnown: bool, written: bool)

  /** `accepted` is whether the wallet sends the transaction, `hash` the hash that it returns, if one arrives. */
  datatype SubmitAnswers = SubmitAnswers(open: bool, connected: bool, accepted: bool, hash: Option<Hash>, written: bool)

  /** eth_getTransactionReceipt: `number` and `block` are height and hash of the transaction's block, if it is in one. */
  datatype Receipt = Receipt(succeeded: bool, number: Option<nat>, block: Option<string>, gasUsed: nat, price: Option<nat>)

  /** One turn of polling: the receipt, the height of the chain, and the receipt read again. The turns end with the
      time limit or with a read that fails. */
  datatype Poll = Poll(first: Option<Receipt>, head: nat, second: Option<Receipt>)

  datatype SolanaTransaction = SolanaTransaction(failed: bool, before: nat, after: nat, fee: nat)

  /** The actual fee of a confirmed transaction and, after a revocation, the allowance that is left. */
  datatype EvmConfirmation = EvmConfirmation(fee: nat, allowance: Option<nat>)

  function PayloadCost(t: Terms): nat {
    PayloadValue(t.payload) + t.gas * t.price
  }

  /** The same successful transaction was seen twice in one block that is deep enough. */
  predicate Settles(p: Poll, depth: nat) {
    && p.first.Some? && p.second.Some? && p.first.value.succeeded && p.second.value.succeeded
    && p.first.value.block.Some? && p.second.value.block == p.first.value.block
    && p.first.value.number.Some? && p.first.value.number.value + depth <= p.head + 1
  }

  predicate Fails(p: Poll) {
    p.first.Some? && !p.first.value.succeeded
  }

  /** The poll that decides: it settles, and none before it settles or fails. */
  predicate SettledBy(polls: seq<Poll>, k: nat, depth: nat) {
    k < |polls| && Settles(polls[k], depth) && forall j | 0 <= j < k :: !Settles(polls[j], depth) && !Fails(polls[j])
  }

  /** The first finalized transaction among the answers. */
  predicate FoundBy(polls: seq<Option<SolanaTransaction>>, k: nat) {
    k < |polls| && polls[k].Some? && forall j | 0 <= j < k :: polls[j].None?
  }

  class StandardWalletAdapter {
    const confirmations: nat
    var store: map<Operation, Record>
    ghost var sends: seq<Send>

    ghost function Abstract(): Wallet
      reads this
    {
      Wallet(store, sends)
    }

    ghost predicate Valid()
      reads this
    {
      1 <= confirmations <= 64 && SendsAgree(Abstract())
    }

    constructor (depth: nat)
      requires 1 <= depth <= 64
      ensures Valid() && store == map[] && sends == [] && confirmations == depth
    {
      confirmations := depth;
      store := map[];
      sends := [];
    }

    /** prepareEvm and prepareEvmApprovalRevocation: the first success fixes the terms with a quarter of
        headroom on gas, rounded down, and on the price, rounded up; a repetition returns the stored terms or
        refuses a different request. */
    method PrepareEvm(op: Operation, payload: Payload, window: int, maximumGas: nat, maximumFee: nat, says: EvmAnswers)
      returns (r: Option<PrepareReply>)
      requires Valid()
      modifies this`store
      ensures Valid() && PrepareStep(old(Abstract()), op, payload, Abstract())
      ensures op in old(store) ==> store == old(store)
      ensures op in old(store) ==>
                (r.Some? <==> says.open && says.connected && store[op].terms.payload == payload && store[op].terms.window == window)
      ensures op !in old(store) ==>
                (r.Some? <==> says.open && says.connected && says.written
                              && 125 * says.estimate < 100 * (maximumGas + 1) && 125 * says.gasPrice <= 100 * maximumFee)
      ensures op !in old(store) ==> store == if r.Some? then old(store)[op := Record(Prepared, r.value.terms, "")] else old(store)
      ensures r.Some? && op !in old(store) ==>
                var terms := r.value.terms;
                && terms.payload == payload && terms.window == window && terms.nonce == says.nonce
                && 100 * terms.gas <= 125 * says.estimate < 100 * (terms.gas + 1)
                && 100 * (terms.price - 1) < 125 * says.gasPrice <= 100 * terms.price
      ensures r.Some? ==> r.value.terms == store[op].terms && r.value.maximum == PayloadCost(r.value.terms)
    {
      r := None;
      if !says.open || !says.connected { return; }
      if op in store {
        var existing := store[op];
        if existing.terms.payload != payload || existing.terms.window != window { return; }
        return Some(PrepareReply(existing.terms, PayloadValue(existing.terms.payload) + existing.terms.gas * existing.terms.price));
      }
      var gas, fee := says.estimate * 125 / 100, (says.gasPrice * 125 + 99) / 100;
      if gas > maximumGas || fee > maximumFee { return; }
      var terms := Terms(payload, window, gas, fee, says.nonce);
      if !says.written { return; }
      store := store[op := Record(Prepared, terms, "")];
      r := Some(PrepareReply(terms, PayloadValue(payload) + gas * fee));
    }

    /** prepareSolana: like prepareEvm, with the whole cap as the action's maximum and a blockhash for a nonce. */
    method PrepareSolana(op: Operation, construction: Payload, window: int, maximum: nat, says: SolanaAnswers)
      returns (r: Option<PrepareReply>)
      requires Valid()
      modifies this`store
      ensures Valid() && PrepareStep(old(Abstract()), op, construction, Abstract())
      ensures op in old(store) ==> store == old(store)
      ensures op in old(store) ==>
                (r.Some? <==> says.open && says.connected && store[op].terms.payload == construction && store[op].terms.window == window)
      ensures op !in old(store) ==> (r.Some? <==> says.open && says.connected && says.simulated && says.feeKnown && says.written)
      ensures op !in old(store) ==>
                store == if r.Some? then old(store)[op := Record(Prepared, Terms(construction, window, maximum, 0, says.blockhash), "")] else old(store)
      ensures r.Some? ==> r.value.terms == store[op].terms && r.value.maximum == store[op].terms.gas
    {
      r := None;
      if !says.open || !says.connected { return; }
      if op in store {
        var existing := store[op];
        if existing.terms.payload != construction || existing.terms.window != window { return; }
        return Some(PrepareReply(existing.terms, existing.terms.gas));
      }
      if !says.simulated || !says.feeKnown { return; }
      var terms := Terms(construction, window, maximum, 0, says.blockhash);
      if !says.written { return; }
      store := store[op := Record(Prepared, terms, "")];
      r := Some(PrepareReply(terms, maximum));
    }

    /** The operation is prepared on these terms and has not been submitted as far as the store knows. */
    predicate Waiting(op: Operation, terms: Terms)
      reads this
    {
      op in store && store[op].terms == terms && store[op].status == Prepared
    }

    /** submitEvm and submitSolana: an operation whose hash is stored is never sent again; otherwise the stored
        terms are sent, and a stop or a lost reply after the send leaves the record prepared. */
    method Submit(op: Operation, terms: Terms, says: SubmitAnswers) returns (r: Option<Hash>)
      requires Valid()
      modifies this
      ensures Valid() && SubmitStep(old(Abstract()), op, Abstract())
      ensures r.Some? <==>
                && says.open && op in old(store) && old(store)[op].terms == terms
                && (old(store)[op].status == Prepared ==> says.connected && says.accepted && says.hash.Some? && says.written)
      ensures r.Some? ==> r == if old(Waiting(op, terms)) then says.hash else Some(old(store)[op].hash)
      ensures sends == old(sends) + if old(Waiting(op, terms)) && says.open && says.connected && says.accepted then [Send(op, terms)] else []
      ensures store == if r.Some? && old(Waiting(op, terms)) then old(store)[op := Record(Sent, terms, r.value)] else old(store)
    {
      r := None;
      if !says.open || op !in store || store[op].terms != terms { return; }
      var stored := store[op];
      if stored.status == Sent || stored.status == Settled { return Some(stored.hash); }
      if !says.connected { return; }
      if says.accepted {
        ghost var before := sends;
        sends := sends + [Send(op, stored.terms)];
        assert forall i | 0 <= i < |before| :: sends[i] == before[i];
      }
      if !says.accepted || says.hash.None? || !says.written { return; }
      store := store[op := Record(Sent, stored.terms, says.hash.value)];
      r := says.hash;
    }

    /** The operation has this transaction hash on record, for this request and window. */
    predicate Recorded(op: Operation, hash: Hash, payload: Payload, window: int)
      reads this
    {
      && op in store && store[op].status != Prepared && store[op].hash == hash
      && store[op].terms.payload == payload && store[op].terms.window == window
    }

    /** confirmEvm: poll until one receipt, read twice in the same block, is deep enough. A confirmation is given
        for the first such poll and no other, and for a revocation only when the allowance read after it is gone. */
    method ConfirmEvm(op: Operation, hash: Hash, payload: Payload, window: int, polls: seq<Poll>, allowanceLeft: nat, written: bool)
      returns (r: Option<EvmConfirmation>)
      requires Valid()
      modifies this`store
      ensures Valid() && ConfirmStep(old(Abstract()), op, Abstract())
      ensures r.Some? <==>
                && old(Recorded(op, hash, payload, window)) && (exists k: nat :: SettledBy(polls, k, confirmations))
                && (payload.Revocation? ==> allowanceLeft == 0) && written
      ensures forall k: nat | r.Some? && SettledBy(polls, k, confirmations) ::
                var receipt := polls[k].second.value;
                r.value.fee == receipt.gasUsed * (if receipt.price.Some? then receipt.price.value else old(store)[op].terms.price)
      ensures r.Some? ==> r.value.allowance == if payload.Revocation? then Some(0) else None
      ensures store == if r.Some? then old(store)[op := old(store)[op].(status := Settled)] else old(store)
    {
      r := None;
      if !Recorded(op, hash, payload, window) { return; }
      var stored := store[op];
      var receipt: Option<Receipt> := None;
      var turn := 0;
      while turn < |polls| && receipt.None?
        invariant turn <= |polls|
        invariant receipt.None? ==> forall j | 0 <= j < turn :: !Settles(polls[j], confirmations) && !Fails(polls[j])
        invariant receipt.Some? ==> turn > 0 && SettledBy(polls, turn - 1, confirmations) && receipt == polls[turn - 1].second
        decreases |polls| - turn
      {
        var candidate := polls[turn].first;
        if candidate.Some? && !candidate.value.succeeded {
          assert Fails(polls[turn]);
          return;
        }
        if candidate.Some? && candidate.value.number.Some? && candidate.value.block.Some? {
          if polls[turn].head >= candidate.value.number.value + (confirmations - 1) {
            var repeated := polls[turn].second;
            if repeated.Some? && repeated.value.block == candidate.value.block && repeated.value.succeeded {
              receipt := repeated;
            }
          }
        }
        turn := turn + 1;
      }
      if receipt.None? { return; }
      var price := if receipt.value.price.Some? then receipt.value.price.value else stored.terms.price;
      var allowance: Option<nat> := None;
      if stored.terms.payload.Revocation? {
        allowance := Some(allowanceLeft);
        if allowanceLeft != 0 { return; }
      }
      if !written { return; }
      store := store[op := stored.(status := Settled)];
      r := Some(EvmConfirmation(receipt.value.gasUsed * price, allowance));
    }

    /** confirmSolana: poll until the transaction is finalized; what the payer lost, or the fee if it lost nothing. */
    method ConfirmSolana(op: Operation, hash: Hash, payload: Payload, window: int, polls: seq<Option<SolanaTransaction>>, written: bool)
      returns (r: Option<nat>)
      requires Valid()
      modifies this`store
      ensures Valid() && ConfirmStep(old(Abstract()), op, Abstract())
      ensures r.Some? <==>
                && old(Recorded(op, hash, payload, window)) && written
                && exists k: nat :: FoundBy(polls, k) && !polls[k].value.failed
      ensures forall k: nat | r.Some? && FoundBy(polls, k) ::
                var found := polls[k].value;
                r.value == if found.before > found.after then found.before - found.after else found.fee
      ensures store == if r.Some? then old(store)[op := old(store)[op].(status := Settled)] else old(store)
    {
      r := None;
      if !Recorded(op, hash, payload, window) { return; }
      var found: Option<SolanaTransaction> := None;
      var turn := 0;
      while turn < |polls| && found.None?
        invariant turn <= |polls|
        invariant found.None? ==> forall j | 0 <= j < turn :: polls[j].None?
        invariant found.Some? ==> turn > 0 && FoundBy(polls, turn - 1) && found == polls[turn - 1]
        decreases |polls| - turn
      {
        found := polls[turn];
        turn := turn + 1;
      }
      if found.None? || found.value.failed { return; }
      var delta := found.value.before as int - found.value.after as int;
      if !written { return; }
      store := store[op := store[op].(status := Settled)];
      r := Some(if delta > 0 then delta else found.value.fee);
    }
  }
}
