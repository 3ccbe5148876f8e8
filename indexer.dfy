/**
 * backend/src/indexer.ts: the in-memory projections the indexer keeps of
 * the token's `Transfer` events, namely a map from address to its last
 * fetched balance, and the ten most recent transfers, newest first.
 *
 * The balances are read from the chain (`balanceOf`) and formatted by
 * `ethers.formatEther`; both are outside the model, so the handler is
 * given the outcome of each call: the formatted string, or `None` when
 * the call rejects. Each invocation of the handler is
 * taken to run without interleaving.
 */
module Indexer {
  import opened Wrappers

  type Address = string

  /** `ethers.ZeroAddress`: the sender of a mint. */
  const ZeroAddress: Address := "0x0000000000000000000000000000000000000000"

  /** `MAX_TRANSFERS`. */
  const MaxTransfers: nat := 10

  /** `TransferEvent`: one indexed transfer, all fields as the strings the handler stores. */
  datatype TransferEvent = TransferEvent(from: Address, to: Address, amount: string, txHash: string)

  // ----- the transfer list -----

  /**
   * The list update of the handler: `unshift` of the new record, then one
   * `pop` when the length exceeds `MaxTransfers`.
   */
  function PushRecent(transfers: seq<TransferEvent>, ev: TransferEvent): (r: seq<TransferEvent>)
    // the cap is kept
    ensures |transfers| <= MaxTransfers ==> |r| <= MaxTransfers
    // the tail is dropped only when the list was full
    ensures |r| == if |transfers| < MaxTransfers then |transfers| + 1 else |transfers|
    // the new record leads, and the old ones follow in their order, one place back
    ensures r[0] == ev
    ensures forall i :: 1 <= i < |r| ==> r[i] == transfers[i - 1]
  {
    var unshifted := [ev] + transfers;
    if |unshifted| > MaxTransfers then unshifted[..|unshifted| - 1] else unshifted
  }

  /** The list after handling `events`, oldest first, from an empty start. */
  function Replay(events: seq<TransferEvent>): seq<TransferEvent>
  {
    if events == [] then [] else PushRecent(Replay(events[..|events| - 1]), events[|events| - 1])
  }

  /**
   * After any sequence of events, the list holds the last min(n, 10) of
   * them, the newest first.
   */
  lemma {:induction false} ReplayIsNewestFirst(events: seq<TransferEvent>)
    ensures |Replay(events)| == if |events| < MaxTransfers then |events| else MaxTransfers
    ensures forall i :: 0 <= i < |Replay(events)| ==> Replay(events)[i] == events[|events| - 1 - i]
  {
    if events != [] {
      var prefix := events[..|events| - 1];
      ReplayIsNewestFirst(prefix);
      var r := Replay(events);
      assert r == PushRecent(Replay(prefix), events[|events| - 1]);
      forall i | 1 <= i < |r| ensures r[i] == events[|events| - 1 - i] {
        assert r[i] == Replay(prefix)[i - 1] == prefix[|prefix| - 1 - (i - 1)];
      }
    }
  }

  /** Handling fifteen events leaves exactly the last ten, newest first. */
  lemma ReplayFifteen(events: seq<TransferEvent>)
    requires |events| == 15
    ensures Replay(events) == [events[14], events[13], events[12], events[11], events[10],
                               events[9], events[8], events[7], events[6], events[5]]
  {
    ReplayIsNewestFirst(events);
  }

  // ----- the balance map -----

  /**
   * The balance writes of the handler: the sender's balance unless the
   * sender is the zero address, then the receiver's balance.
   */
  function ApplyBalances(balances: map<Address, string>, from: Address, to: Address,
                         fromBalance: string, toBalance: string): (r: map<Address, string>)
    // the receiver always gets its fetched balance, also when it is the sender (the later write wins)
    ensures to in r && r[to] == toBalance
    // a sender other than the zero address gets its fetched balance
    ensures from != ZeroAddress && from != to ==> from in r && r[from] == fromBalance
    // the zero address as sender is not written
    ensures from == ZeroAddress && from != to ==>
              (from in r <==> from in balances) && (from in balances ==> r[from] == balances[from])
    // no other key changes, and keys are only added
    ensures r.Keys == balances.Keys + {to} + (if from != ZeroAddress then {from} else {})
    ensures forall k :: k in balances && k != from && k != to ==> r[k] == balances[k]
  {
    var afterSender := if from != ZeroAddress then balances[from := fromBalance] else balances;
    afterSender[to := toBalance]
  }

  /** The indexer's module-level state, `balances` and `transfers`. */
  class IndexerState {
    var balances: map<Address, string>
    var transfers: seq<TransferEvent>
    /** Every event handled so far, oldest first. */
    ghost var handled: seq<TransferEvent>

    ghost predicate Valid()
      reads this
    {
      transfers == Replay(handled)
    }

    /** The module's initial state: an empty map and an empty list. */
    constructor ()
      ensures Valid()
      ensures balances == map[] && transfers == [] && handled == []
    {
      balances := map[];
      transfers := [];
      handled := [];
    }

    /**
     * The seeding step of `startIndexer`. `owner` and `ownerBalance` are
     * the results of the `owner()` and `balanceOf(owner)` calls, `None`
     * when the call rejects; a rejection ends `startIndexer` before the
     * owner is recorded (and before the subscription starts).
     */
    method StartIndexer(owner: Option<Address>, ownerBalance: Option<string>) returns (ok: bool)
      requires Valid()
      modifies this
      ensures Valid()
      ensures ok <==> owner.Some? && ownerBalance.Some?
      ensures ok ==> balances == old(balances)[owner.value := ownerBalance.value]
      ensures !ok ==> balances == old(balances)
      ensures transfers == old(transfers) && handled == old(handled)
    {
      if owner.None? || ownerBalance.None? {
        return false;
      }
      balances := balances[owner.value := ownerBalance.value];
      ok := true;
    }

    /**
     * The `Transfer` handler. `fromBalance` and `toBalance` are the results
     * of the `balanceOf` calls for sender and receiver, `None` when the call
     * rejects. `fromBalance` is not used when the sender is the zero
     * address, for which the handler makes no call. A rejection ends the
     * handler at that `await`: writes made before it stay, nothing after it
     * happens, and `ok` is false.
     */
    method OnTransfer(from: Address, to: Address, amount: string, txHash: string,
                      fromBalance: Option<string>, toBalance: Option<string>) returns (ok: bool)
      requires Valid()
      modifies this
      ensures Valid()
      ensures ok <==> (from == ZeroAddress || fromBalance.Some?) && toBalance.Some?
      // the handler ran to the end
      ensures ok ==> handled == old(handled) + [TransferEvent(from, to, amount, txHash)]
      ensures ok ==> balances == ApplyBalances(old(balances), from, to, fromBalance.GetOr(""), toBalance.value)
      ensures ok ==> transfers == PushRecent(old(transfers), TransferEvent(from, to, amount, txHash))
      // the sender's balance could not be read: nothing changes
      ensures from != ZeroAddress && fromBalance.None? ==>
                balances == old(balances) && transfers == old(transfers) && handled == old(handled)
      // the receiver's balance could not be read: only the sender's write stays
      ensures (from == ZeroAddress || fromBalance.Some?) && toBalance.None? ==>
                balances == (if from != ZeroAddress then old(balances)[from := fromBalance.value] else old(balances)) &&
                transfers == old(transfers) && handled == old(handled)
      ensures |transfers| <= MaxTransfers
    {
      if from != ZeroAddress {
        if fromBalance.None? {
          ReplayIsNewestFirst(handled);
          return false;
        }
        balances := balances[from := fromBalance.value];
      }
      if toBalance.None? {
        ReplayIsNewestFirst(handled);
        return false;
      }
      balances := balances[to := toBalance.value];

      var ev := TransferEvent(from, to, amount, txHash);
      transfers := [ev] + transfers;
      if |transfers| > MaxTransfers {
        transfers := transfers[..|transfers| - 1];
      }

      ghost var before := handled;
      handled := handled + [ev];
      assert handled[..|handled| - 1] == before;
      ReplayIsNewestFirst(handled);
      ok := true;
    }

    /** `getBalances`: exactly the key/value pairs of the map. */
    method GetBalances() returns (r: map<Address, string>)
      ensures r.Keys == balances.Keys
      ensures forall k :: k in r ==> r[k] == balances[k]
    {
      r := balances;
    }

    /** `getTransfers`: at most ten records, the i-th being the i-th most recent event. */
    method GetTransfers() returns (r: seq<TransferEvent>)
      requires Valid()
      ensures r == transfers
      ensures |r| <= MaxTransfers
      ensures |r| == if |handled| < MaxTransfers then |handled| else MaxTransfers
      ensures forall i :: 0 <= i < |r| ==> r[i] == handled[|handled| - 1 - i]
    {
      r := transfers;
      ReplayIsNewestFirst(handled);
    }
  }
}
