/**
  The information about one rewards interval for one node (GetIntervalInfo and
  GetRewardSnapshotEvent in shared/services/rewards/utils.go).

  The event of the interval comes from a hard-coded table for the first six
  Prater intervals and from the on-chain event lookup otherwise. The local
  Merkle tree file is then checked: a missing file is reported without error, a
  file whose Merkle root differs from the event's is reported invalid, and from
  a valid file the node's three amounts and its Merkle proof are taken.

  The file system, the JSON decoding, the hex-to-hash conversion and the proof
  decoding of a node's entry are inputs: `TreeFile` is what reading and decoding
  the file gave, `hexToHash` and `proofOf` are the conversions.
*/
module Intervals {
  import opened Wrappers

  /** A 32-byte hash. */
  type Hash = seq<bv8>

  /** A node's 20-byte address. */
  type Address = seq<bv8>

  /** The network the node runs on; only Prater is treated specially. */
  datatype Network = Prater | OtherNetwork(name: string)

  /** The fields of a rewards snapshot event that the interval information uses. */
  datatype RewardsEvent = RewardsEvent(
    merkleRoot: Hash,
    merkleTreeCid: string,
    intervalStartTime: int,
    intervalEndTime: int)

  /** A node's entry in a rewards tree file; `merkleProof` holds hex strings. */
  datatype NodeRewardsInfo = NodeRewardsInfo(
    collateralRpl: int,
    oracleDaoRpl: int,
    smoothingPoolEth: int,
    merkleProof: seq<string>)

  /** A decoded rewards tree file: its Merkle root as a hex string and the nodes' entries. */
  datatype RewardsFile = RewardsFile(merkleRoot: string, nodeRewards: map<Address, NodeRewardsInfo>)

  /** What looking for, reading and decoding the tree file gave. */
  datatype TreeFile =
    | Missing
    | Unreadable(cause: string)
    | Undecodable(cause: string)
    | Decoded(file: RewardsFile)

  /** Why the event lookup failed. */
  datatype EventError =
    | LookupFailed(interval: nat, cause: string)  // "error getting rewards event for interval %d: %w"
    | EventNotFound(interval: nat)                 // "interval %d event not found"

  datatype IntervalError =
    | EventLookupError(event: EventError)
    | FileReadError(path: string, cause: string)          // "error reading %s: %w"
    | FileDecodeError(path: string, cause: string)        // "error deserializing %s: %w"
    | ProofDecodeError(path: string, node: Address, cause: string)

  /**
    The interval information record. The amounts are absent (the Go nil
    pointers) unless the node was found; the proof is empty unless decoded.
  */
  datatype IntervalInfo = IntervalInfo(
    index: nat,
    treeFilePath: string,
    treeFileExists: bool,
    merkleRootValid: bool,
    cid: string,
    startTime: int,
    endTime: int,
    nodeExists: bool,
    collateralRplAmount: Option<int>,
    oDaoRplAmount: Option<int>,
    smoothingPoolEthAmount: Option<int>,
    merkleProof: seq<Hash>)

  /** The record and the error that the Go function returns together. */
  datatype IntervalResult = IntervalResult(info: IntervalInfo, err: Option<IntervalError>)

  /** The record with only its index set, as Go's zero value after the first assignment. */
  function Blank(interval: nat): IntervalInfo
  {
    IntervalInfo(interval, "", false, false, "", 0, 0, false, None, None, None, [])
  }

  /**
    The flags of a record say how far the checks went: a node is only found in
    a valid file, a file is only valid when it exists, and the amounts are
    present exactly when the node was found.
  */
  predicate Consistent(info: IntervalInfo)
  {
    && (info.nodeExists ==> info.merkleRootValid)
    && (info.merkleRootValid ==> info.treeFileExists)
    && (info.collateralRplAmount.Some? <==> info.nodeExists)
    && (info.oDaoRplAmount.Some? <==> info.nodeExists)
    && (info.smoothingPoolEthAmount.Some? <==> info.nodeExists)
    && (info.merkleProof != [] ==> info.nodeExists)
  }

  /**
    GetRewardSnapshotEvent: `lookup` is the outcome of the event query, `None`
    when the event was not found.
  */
  function GetRewardSnapshotEvent(interval: nat, lookup: Result<Option<RewardsEvent>, string>)
    : (r: Result<RewardsEvent, EventError>)
    ensures r.Success? <==> lookup.Success? && lookup.value.Some?
    ensures r.Success? ==> r.value == lookup.value.value
    ensures r.Failure? ==> r.error.interval == interval
    ensures r.Failure? ==> (r.error.LookupFailed? <==> lookup.Failure?)
  {
    match lookup
    case Failure(cause) => Failure(LookupFailed(interval, cause))
    case Success(None) => Failure(EventNotFound(interval))
    case Success(Some(event)) => Success(event)
  }

  /** The first six Prater intervals come from the hard-coded table. */
  predicate UsesPrehistory(network: Network, interval: nat)
  {
    network == Prater && interval < 6
  }

  /** The event of the interval: from the table, or from the lookup. */
  function IntervalEvent(network: Network, prehistory: seq<RewardsEvent>, interval: nat,
                         lookup: Result<Option<RewardsEvent>, string>): Result<RewardsEvent, EventError>
    requires UsesPrehistory(network, interval) ==> interval < |prehistory|
  {
    if UsesPrehistory(network, interval) then Success(prehistory[interval])
    else GetRewardSnapshotEvent(interval, lookup)
  }

  /**
    GetIntervalInfo. `prehistory` is the table of early Prater events, `lookup`
    the outcome of the event query, `path` the configured tree file path of the
    interval, `file` what reading it gave, `hexToHash` the conversion of the
    file's root and `proofOf` the decoding of a node entry's proof.
  */
  function GetIntervalInfo(network: Network, prehistory: seq<RewardsEvent>, interval: nat,
                           lookup: Result<Option<RewardsEvent>, string>, path: string, file: TreeFile,
                           hexToHash: string -> Hash, proofOf: NodeRewardsInfo -> Result<seq<Hash>, string>,
                           node: Address): (res: IntervalResult)
    requires UsesPrehistory(network, interval) ==> interval < |prehistory|
    ensures res.info.index == interval
    ensures Consistent(res.info)
    ensures res.info.treeFileExists <==> IntervalEvent(network, prehistory, interval, lookup).Success? && !file.Missing?
    ensures res.info.nodeExists ==> file.Decoded? && node in file.file.nodeRewards
  {
    var info := Blank(interval);
    match IntervalEvent(network, prehistory, interval, lookup)
    case Failure(e) => IntervalResult(info, Some(EventLookupError(e)))
    case Success(event) =>
      var info := info.(cid := event.merkleTreeCid, startTime := event.intervalStartTime,
                        endTime := event.intervalEndTime, treeFilePath := path);
      match file
      case Missing => IntervalResult(info, None)
      case Unreadable(cause) => IntervalResult(info.(treeFileExists := true), Some(FileReadError(path, cause)))
      case Undecodable(cause) => IntervalResult(info.(treeFileExists := true), Some(FileDecodeError(path, cause)))
      case Decoded(f) =>
        var info := info.(treeFileExists := true);
        if event.merkleRoot != hexToHash(f.merkleRoot) then IntervalResult(info, None)
        else
          var info := info.(merkleRootValid := true);
          if node !in f.nodeRewards then IntervalResult(info, None)
          else
            var rewards := f.nodeRewards[node];
            var info := info.(nodeExists := true,
                              collateralRplAmount := Some(rewards.collateralRpl),
                              oDaoRplAmount := Some(rewards.oracleDaoRpl),
                              smoothingPoolEthAmount := Some(rewards.smoothingPoolEth));
            match proofOf(rewards)
            case Failure(cause) => IntervalResult(info, Some(ProofDecodeError(path, node, cause)))
            case Success(proof) => IntervalResult(info.(merkleProof := proof), None)
  }

  /** The event fields copied into the record, with the tree file path. */
  predicate FromEvent(info: IntervalInfo, event: RewardsEvent, path: string)
  {
    && info.cid == event.merkleTreeCid
    && info.startTime == event.intervalStartTime
    && info.endTime == event.intervalEndTime
    && info.treeFilePath == path
  }

  /**
    For the first six Prater intervals the event comes from the table and the
    outcome of the event query plays no part in the result.
  */
  lemma PrehistoryIgnoresLookup(network: Network, prehistory: seq<RewardsEvent>, interval: nat,
                                lookup1: Result<Option<RewardsEvent>, string>,
                                lookup2: Result<Option<RewardsEvent>, string>,
                                path: string, file: TreeFile, hexToHash: string -> Hash,
                                proofOf: NodeRewardsInfo -> Result<seq<Hash>, string>, node: Address)
    requires network == Prater && interval < 6 && interval < |prehistory|
    ensures var res := GetIntervalInfo(network, prehistory, interval, lookup1, path, file, hexToHash, proofOf, node);
            && res == GetIntervalInfo(network, prehistory, interval, lookup2, path, file, hexToHash, proofOf, node)
            && !(res.err.Some? && res.err.value.EventLookupError?)
            && FromEvent(res.info, prehistory[interval], path)
  {
  }

  /**
    Outside the table a failed or empty event query is an error, and the record
    carries nothing but the interval index.
  */
  lemma EventErrorStopsEarly(network: Network, prehistory: seq<RewardsEvent>, interval: nat,
                             lookup: Result<Option<RewardsEvent>, string>, path: string, file: TreeFile,
                             hexToHash: string -> Hash, proofOf: NodeRewardsInfo -> Result<seq<Hash>, string>,
                             node: Address)
    requires !UsesPrehistory(network, interval)
    requires lookup.Failure? || lookup == Success(None)
    ensures var res := GetIntervalInfo(network, prehistory, interval, lookup, path, file, hexToHash, proofOf, node);
            && res.info == Blank(interval)
            && (lookup.Failure? ==> res.err == Some(EventLookupError(LookupFailed(interval, lookup.error))))
            && (lookup.Success? ==> res.err == Some(EventLookupError(EventNotFound(interval))))
  {
  }

  /**
    A missing tree file is no error: the record has the event's fields and the
    path, and every flag is false.
  */
  lemma MissingFileIsNoError(network: Network, prehistory: seq<RewardsEvent>, interval: nat,
                             lookup: Result<Option<RewardsEvent>, string>, path: string,
                             hexToHash: string -> Hash, proofOf: NodeRewardsInfo -> Result<seq<Hash>, string>,
                             node: Address)
    requires UsesPrehistory(network, interval) ==> interval < |prehistory|
    requires IntervalEvent(network, prehistory, interval, lookup).Success?
    ensures var event := IntervalEvent(network, prehistory, interval, lookup).value;
            var res := GetIntervalInfo(network, prehistory, interval, lookup, path, Missing, hexToHash, proofOf, node);
            && res.err == None
            && res.info == Blank(interval).(cid := event.merkleTreeCid, startTime := event.intervalStartTime,
                                            endTime := event.intervalEndTime, treeFilePath := path)
  {
  }

  /**
    A file whose root is not the event's root is reported invalid, without an
    error and without any of the node's data.
  */
  lemma RootMismatchIsInvalid(network: Network, prehistory: seq<RewardsEvent>, interval: nat,
                              lookup: Result<Option<RewardsEvent>, string>, path: string, f: RewardsFile,
                              hexToHash: string -> Hash, proofOf: NodeRewardsInfo -> Result<seq<Hash>, string>,
                              node: Address)
    requires UsesPrehistory(network, interval) ==> interval < |prehistory|
    requires IntervalEvent(network, prehistory, interval, lookup).Success?
    requires IntervalEvent(network, prehistory, interval, lookup).value.merkleRoot != hexToHash(f.merkleRoot)
    ensures var res := GetIntervalInfo(network, prehistory, interval, lookup, path, Decoded(f), hexToHash, proofOf, node);
            && res.err == None
            && res.info.treeFileExists && !res.info.merkleRootValid && !res.info.nodeExists
            && res.info.collateralRplAmount == None && res.info.oDaoRplAmount == None
            && res.info.smoothingPoolEthAmount == None && res.info.merkleProof == []
  {
  }

  /**
    In a valid file the node's entry decides the rest: an absent node is no
    error; a present node's three amounts are copied unchanged, with its proof
    or the error decoding it.
  */
  lemma ValidFileNodeLookup(network: Network, prehistory: seq<RewardsEvent>, interval: nat,
                            lookup: Result<Option<RewardsEvent>, string>, path: string, f: RewardsFile,
                            hexToHash: string -> Hash, proofOf: NodeRewardsInfo -> Result<seq<Hash>, string>,
                            node: Address)
    requires UsesPrehistory(network, interval) ==> interval < |prehistory|
    requires IntervalEvent(network, prehistory, interval, lookup).Success?
    requires IntervalEvent(network, prehistory, interval, lookup).value.merkleRoot == hexToHash(f.merkleRoot)
    ensures var res := GetIntervalInfo(network, prehistory, interval, lookup, path, Decoded(f), hexToHash, proofOf, node);
            && res.info.merkleRootValid
            && (res.info.nodeExists <==> node in f.nodeRewards)
            && (node !in f.nodeRewards ==> res.err == None && res.info.merkleProof == [])
            && (node in f.nodeRewards ==>
                  var rewards := f.nodeRewards[node];
                  && res.info.collateralRplAmount == Some(rewards.collateralRpl)
                  && res.info.oDaoRplAmount == Some(rewards.oracleDaoRpl)
                  && res.info.smoothingPoolEthAmount == Some(rewards.smoothingPoolEth)
                  && (proofOf(rewards).Success? ==> res.err == None && res.info.merkleProof == proofOf(rewards).value)
                  && (proofOf(rewards).Failure? ==>
                        res.err == Some(ProofDecodeError(path, node, proofOf(rewards).error)) && res.info.merkleProof == []))
  {
  }

  /**
    Only the proof can fail once the file is valid: a result without an error
    has been through every check the file allows.
  */
  lemma NoErrorMeansChecked(network: Network, prehistory: seq<RewardsEvent>, interval: nat,
                            lookup: Result<Option<RewardsEvent>, string>, path: string, file: TreeFile,
                            hexToHash: string -> Hash, proofOf: NodeRewardsInfo -> Result<seq<Hash>, string>,
                            node: Address)
    requires UsesPrehistory(network, interval) ==> interval < |prehistory|
    ensures var res := GetIntervalInfo(network, prehistory, interval, lookup, path, file, hexToHash, proofOf, node);
            res.err == None ==>
              && IntervalEvent(network, prehistory, interval, lookup).Success?
              && FromEvent(res.info, IntervalEvent(network, prehistory, interval, lookup).value, path)
              && (file.Missing? || file.Decoded?)
              && (res.info.merkleRootValid <==>
                    file.Decoded? && IntervalEvent(network, prehistory, interval, lookup).value.merkleRoot == hexToHash(file.file.merkleRoot))
  {
  }
}
