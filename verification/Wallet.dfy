/** The packaged wallet adapter's durable operation records (src/standard-wallet-adapter.js),
    and the transactions that it handed to the wallet. */
module Wallet {
  import opened Wrappers
  import opened RunnerState

  datatype RecordStatus = Prepared | Sent | Settled

  /** Everything that is fixed when an operation is prepared. */
  datatype Terms = Terms(payload: Payload, window: int, gas: nat, price: nat, nonce: nat)

  datatype Record = Record(status: RecordStatus, terms: Terms, hash: Hash)

  /** One transaction handed to the wallet: the operation it was for, and its terms. */
  datatype Send = Send(operation: Operation, terms: Terms)

  /** `sends` is a history variable. */
  datatype Wallet = Wallet(store: map<Operation, Record>, sends: seq<Send>)

  /** prepare: the first successful one fixes the terms; later ones change nothing. */
  ghost predicate PrepareStep(w: Wallet, op: Operation, payload: Payload, w': Wallet) {
    || w' == w
    || (&& op !in w.store && op in w'.store
        && w'.store[op].status == Prepared && w'.store[op].terms.payload == payload
        && w' == w.(store := w.store[op := w'.store[op]]))
  }

  /** submit: a prepared operation is sent on its stored terms and, unless the process stops or the
      reply is lost first, recorded as sent; in every other case nothing happens. */
  ghost predicate SubmitStep(w: Wallet, op: Operation, w': Wallet) {
    || w' == w
    || (&& op in w.store && w.store[op].status == Prepared
        && w'.sends == w.sends + [Send(op, w.store[op].terms)]
        && (|| w'.store == w.store
            || (&& op in w'.store && w'.store[op].status == Sent && w'.store[op].terms == w.store[op].terms
                && w'.store == w.store[op := w'.store[op]])))
  }

  ghost predicate ConfirmStep(w: Wallet, op: Operation, w': Wallet) {
    || w' == w
    || (&& op in w.store && w.store[op].status != Prepared
        && w' == w.(store := w.store[op := w.store[op].(status := Settled)]))
  }

  /** Every transaction sent for an operation was sent on the terms stored for it. */
  ghost predicate SendsAgree(w: Wallet) {
    forall i | 0 <= i < |w.sends| ::
      w.sends[i].operation in w.store && w.sends[i].terms == w.store[w.sends[i].operation].terms
  }
}
