/** The rows of tx_erc20 transfer by transfer: which logs of the blocks they come from. */
module AsyncRows {
  import opened Chain
  import opened Table
  import opened AsyncSpec
  import opened Listing

  // The j-th log of the i-th transaction is an ERC-20 transfer, and this is its row.
  predicate HasTransfer(b: Block, c: Cell, t: Transfer) {
    && c.i < |b.txs| && c.j < |b.txs[c.i].logs|
    && var l := b.txs[c.i].logs[c.j];
       && l.topic0 == ERC20_TRANSFER && l.topic1 != "" && l.topic2 != "" && l.topic3 == ""
       && t.txHash == b.txs[c.i].hash && t.addr == l.addr && t.sender == l.topic1 && t.receiver == l.topic2
       && t.tokens == l.value && t.logIndex == l.index
  }

  function TransferOf(hash: Hash, l: EventLog): seq<Transfer> {
    if IsErc20Tx(l) then [Transfer(hash, l.addr, l.topic1, l.topic2, l.value, l.index)] else []
  }

  lemma {:induction false} TransfersOfTxFlat(hash: Hash, logs: seq<EventLog>)
    ensures TransfersOfTx(hash, logs) == FlatTx(TransferOf, hash, logs)
  {
    if logs != [] {
      TransfersOfTxFlat(hash, logs[1..]);
    }
  }

  lemma {:induction false} TransfersFlat(txs: seq<Tx>)
    ensures TransfersOf(txs) == Flat(TransferOf, txs)
  {
    if txs != [] {
      TransfersOfTxFlat(txs[0].hash, txs[0].logs);
      TransfersFlat(txs[1..]);
    }
  }

  // The transfers of a block: one for each ERC-20 transfer log of each transaction, in their order, and no other.
  lemma TransfersListed(b: Block)
    ensures Lists(Transfers(b), b, HasTransfer)
  {
    TransfersFlat(b.txs);
    FlatLists(TransferOf, b, HasTransfer);
  }

  lemma TransferRows(blocks: seq<Block>)
    ensures RowsInOrder(Part(Transfers, blocks), blocks, HasTransfer)
  {
    hide RowsInOrder, Lists, Transfers, Part, HasTransfer;
    forall b: Block ensures Lists(Transfers(b), b, HasTransfer) {
      TransfersListed(b);
    }
    PartInOrder(Transfers, blocks, HasTransfer);
  }

  // Rows that are, in whatever order, those of the blocks.
  lemma TransferRowsOnce(rows: Rows<Transfer>, blocks: seq<Block>)
    requires multiset(rows) == multiset(Part(Transfers, blocks))
    ensures RowsOnce(rows, blocks, HasTransfer)
  {
    hide RowsInOrder, Part, HasTransfer;
    TransferRows(blocks);
  }
}
