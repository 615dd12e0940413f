/**
  The bond and node fee of a minipool in force at a block's time
  (getMinipoolBondAndNodeFee in shared/services/rewards/utils.go).

  A minipool whose bond was reduced keeps, in its details, the bond and fee it
  had before the last reduction and the time of that reduction. Blocks before
  the reduction see the old values; blocks at or after it, and every block of
  a minipool never reduced, see the current ones. Minipools reduced before the
  previous fee was recorded have a previous fee of 0; they keep the current fee.

  Amounts and times are the on-chain unsigned integers; the block time is a Unix
  time in whole seconds.
*/
module MinipoolBond {
  import opened GoInts

  /** The fields of a minipool's details that the choice reads. */
  datatype MinipoolDetails = MinipoolDetails(
    nodeDepositBalance: nat,
    nodeFee: nat,
    lastBondReductionPrevValue: nat,
    lastBondReductionPrevNodeFee: nat,
    lastBondReductionTime: nat)

  /** A bond and a node fee. */
  datatype BondAndFee = BondAndFee(bond: nat, fee: nat)

  /**
    The block lies before the bond reduction: `reductionTime.Sub(blockTime) > 0`
    with the reduction time taken through `big.Int.Int64` (its low 64 bits,
    read as signed) as seconds.
  */
  predicate BeforeReduction(details: MinipoolDetails, blockTime: int)
  {
    Int64(U64(details.lastBondReductionTime)) > blockTime
  }

  /** getMinipoolBondAndNodeFee: the bond and the fee in force at `blockTime`. */
  function GetMinipoolBondAndNodeFee(details: MinipoolDetails, blockTime: int): (r: BondAndFee)
    ensures r.bond == details.nodeDepositBalance || r.bond == details.lastBondReductionPrevValue
    ensures r.fee == details.nodeFee || r.fee == details.lastBondReductionPrevNodeFee
    ensures r.fee == 0 ==> details.nodeFee == 0
    ensures r.bond != details.nodeDepositBalance ==>
              details.lastBondReductionTime != 0 && BeforeReduction(details, blockTime)
  {
    if details.lastBondReductionTime == 0 then
      // Never reduced
      BondAndFee(details.nodeDepositBalance, details.nodeFee)
    else if BeforeReduction(details, blockTime) then
      if details.lastBondReductionPrevNodeFee == 0 then
        BondAndFee(details.lastBondReductionPrevValue, details.nodeFee)
      else
        BondAndFee(details.lastBondReductionPrevValue, details.lastBondReductionPrevNodeFee)
    else
      BondAndFee(details.nodeDepositBalance, details.nodeFee)
  }

  /** The current bond and fee are in force at `blockTime`. */
  predicate CurrentInForce(details: MinipoolDetails, blockTime: int)
  {
    GetMinipoolBondAndNodeFee(details, blockTime) == BondAndFee(details.nodeDepositBalance, details.nodeFee)
  }

  /** A minipool never reduced has its current bond and fee at every block. */
  lemma NeverReducedIsCurrent(details: MinipoolDetails, blockTime: int)
    requires details.lastBondReductionTime == 0
    ensures CurrentInForce(details, blockTime)
  {
  }

  /**
    A block strictly before a reduction (whose time fits in 63 bits) sees the
    previous bond, and the previous fee unless that was never recorded (0), in
    which case the current fee.
  */
  lemma BeforeReductionIsPrevious(details: MinipoolDetails, blockTime: int)
    requires 0 < details.lastBondReductionTime < TwoTo63
    requires blockTime < details.lastBondReductionTime
    ensures var r := GetMinipoolBondAndNodeFee(details, blockTime);
            && r.bond == details.lastBondReductionPrevValue
            && (details.lastBondReductionPrevNodeFee == 0 ==> r.fee == details.nodeFee)
            && (details.lastBondReductionPrevNodeFee != 0 ==> r.fee == details.lastBondReductionPrevNodeFee)
  {
  }

  /** A block at the reduction's time or later (in 63 bits) sees the current bond and fee. */
  lemma AtOrAfterReductionIsCurrent(details: MinipoolDetails, blockTime: int)
    requires details.lastBondReductionTime < TwoTo63
    requires details.lastBondReductionTime <= blockTime
    ensures CurrentInForce(details, blockTime)
  {
  }

  /**
    Once the current bond and fee are in force they stay in force for every
    later block: the choice switches at most once as block time grows.
  */
  lemma CurrentStaysInForce(details: MinipoolDetails, t1: int, t2: int)
    requires t1 <= t2
    requires CurrentInForce(details, t1)
    ensures CurrentInForce(details, t2)
  {
    if details.lastBondReductionTime != 0 && BeforeReduction(details, t2) {
      assert BeforeReduction(details, t1);
      var r1 := GetMinipoolBondAndNodeFee(details, t1);
      assert r1 == GetMinipoolBondAndNodeFee(details, t2);
    }
  }

  /** Before the reduction the choice does not depend on which earlier block asks. */
  lemma SameBeforeReduction(details: MinipoolDetails, t1: int, t2: int)
    requires BeforeReduction(details, t1) && BeforeReduction(details, t2)
    ensures GetMinipoolBondAndNodeFee(details, t1) == GetMinipoolBondAndNodeFee(details, t2)
  {
  }
}
