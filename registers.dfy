/** The sequential holding-register block that the callback block extends:
    a run of BlockSize cells whose first cell holds the register at address
    Base, so the register at address a lives in cell a - Base. */
module Registers {

  /** The block is created at address 0x01 with 1000 cells, all 0. */
  const Base := 1
  const BlockSize := 1000

  /** The registers [address, address + count) all lie inside the block. */
  predicate InBlock(address: int, count: int) {
    Base <= address && 0 <= count && address - Base + count <= BlockSize
  }

  /** The block's own write: the cells from `address` on take `values`,
      every other cell keeps its value. */
  function Store(regs: seq<int>, address: int, values: seq<int>): (r: seq<int>)
    requires |regs| == BlockSize && InBlock(address, |values|)
    ensures |r| == |regs|
    ensures forall k | 0 <= k < |r| ::
      r[k] == if address - Base <= k < address - Base + |values|
              then values[k - (address - Base)] else regs[k]
  {
    regs[..address - Base] + values + regs[address - Base + |values|..]
  }

  /** The block's own read: the values of the `count` registers from `address` on. */
  function Load(regs: seq<int>, address: int, count: int): (r: seq<int>)
    requires |regs| == BlockSize && InBlock(address, count)
    ensures |r| == count
    ensures forall k | 0 <= k < count :: r[k] == regs[address - Base + k]
  {
    regs[address - Base .. address - Base + count]
  }

  /** Reading back the registers just written gives the values written. */
  lemma LoadAfterStore(regs: seq<int>, address: int, values: seq<int>)
    requires |regs| == BlockSize && InBlock(address, |values|)
    ensures Load(Store(regs, address, values), address, |values|) == values
  {
  }

  /** Registers outside a write read as they did before it. */
  lemma LoadAfterDisjointStore(regs: seq<int>, address: int, values: seq<int>, from: int, count: int)
    requires |regs| == BlockSize && InBlock(address, |values|) && InBlock(from, count)
    requires from + count <= address || address + |values| <= from
    ensures Load(Store(regs, address, values), from, count) == Load(regs, from, count)
  {
  }
}
