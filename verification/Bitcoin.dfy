/** The Bitcoin values the canister handles, and the library functions on them that it
    treats as black boxes. */
module Bitcoin {

  datatype Option<+T> = None | Some(value: T)

  // A 256-bit digest, read as a number.
  type BlockHash = nat
  type Txid = nat

  // A byte string, given by its length and its base-256 value.
  datatype Bytes = Bytes(length: nat, value: nat)

  type Script = Bytes
  type Address(==, !new)

  datatype Network = Mainnet | Testnet | Signet | Regtest

  datatype OutPoint = OutPoint(txid: Txid, vout: nat)

  datatype TxOut = TxOut(value: nat, scriptPubkey: Script)

  datatype TxIn = TxIn(previousOutput: OutPoint, scriptSig: Bytes, sequence: nat, stack: seq<Bytes>)

  // The previous output named by the only input of a coinbase transaction.
  const NULL_OUTPOINT := OutPoint(0, 0xFFFF_FFFF)

  datatype Transaction = Transaction(version: int, lockTime: nat, input: seq<TxIn>, output: seq<TxOut>) {
    function Txid(): Txid {
      TXID(this)
    }

    predicate IsCoinBase() {
      |input| == 1 && input[0].previousOutput == NULL_OUTPOINT
    }

    // The outpoints named by the inputs, in order.
    function Inputs(): seq<OutPoint> {
      seq(|input|, i requires 0 <= i < |input| => input[i].previousOutput)
    }
  }

  datatype Header = Header(version: int, prevBlockhash: BlockHash, merkleRoot: nat, time: nat, bits: nat, nonce: nat)

  datatype Block = Block(header: Header, txdata: seq<Transaction>) {
    function Hash(): BlockHash {
      BLOCK_HASH(header)
    }

    function Prev(): BlockHash {
      header.prevBlockhash
    }
  }

  // Uninterpreted: the double SHA-256 of a header, the identifier of a transaction, and the
  // address that a script pays on a network, if it has one. Nothing is assumed about them
  // except where a lemma states a hypothesis.
  const BLOCK_HASH: Header -> BlockHash
  const TXID: Transaction -> Txid
  const ADDRESS_FROM_SCRIPT: (Script, Network) -> Option<Address>

  function AddressOf(output: TxOut, network: Network): Option<Address> {
    ADDRESS_FROM_SCRIPT(output.scriptPubkey, network)
  }
}
