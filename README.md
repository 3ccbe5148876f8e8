# Fullstack token dApp: indexer projections, vesting key, network table, address shortener

A Dafny model of the small logical core of a token dApp. The back end indexes the token's
`Transfer` events into two in-memory projections. In the model these live in the class
`Indexer.IndexerState`:

- `balances` maps each address to the last balance fetched for it.
- `transfers` holds the ten most recent transfers, newest first.

The `Transfer` handler is `OnTransfer`. It overwrites the sender's balance unless the sender
is the zero address. Then it overwrites the receiver's balance. Then it puts the new record
at the front of the list and drops the oldest record once the list would hold eleven. A
ghost field `handled` records every event handled so far. The invariant `Valid()` ties
`transfers` to `Replay(handled)`. The lemma `ReplayIsNewestFirst` shows that this is
exactly the last min(n, 10) events, newest first.

The vesting module (`Vesting`) models three things:

- the `VestingSchedule` record;
- the case-insensitive key `lower(owner) + "-" + lower(spender)`;
- the schedule table, read and written through that key.

The front end contributes two pure pieces:

- the two-entry table of supported chain ids (`Networks`);
- the `short` address formatter (`VestingCard`), built on JavaScript's `slice` rules for
  negative and out-of-range indices.

The source subscribes to `Transfer` events. Balances are not computed by adding and
subtracting amounts: they are overwritten with the values fetched from the chain.

Inputs from outside the model are parameters:

- the outcome of each `balanceOf` call: the formatted balance, or `None` when the call rejects;
- the amount formatted by `ethers.formatEther`;
- the transaction hash;
- the outcome of the contract's `owner()` call, `None` when it rejects.

## Model

| member | source | states |
|---|---|---|
| `Indexer.PushRecent` | backend/src/indexer.ts:39-48 | the new record becomes element 0; the old records follow in their order, shifted one place; the length grows by one below the cap of 10 and stays the same at the cap, so a list within the cap stays within it |
| `Indexer.ReplayIsNewestFirst` | backend/src/indexer.ts:39-48 | from an empty list, after n events the list has min(n, 10) records and record i is the i-th most recent event |
| `Indexer.ReplayFifteen` | backend/src/indexer.ts:39-48 | after fifteen events the list is exactly events 15 down to 6 |
| `Indexer.ApplyBalances` | backend/src/indexer.ts:31-37 | the receiver maps to its fetched balance, also when it is the sender; a sender other than the zero address maps to its fetched balance; the zero address as sender is left as it was; no other key changes; keys are only added |
| `Indexer.IndexerState.constructor` | backend/src/indexer.ts:11-12 | the projections start as an empty map and an empty list |
| `Indexer.IndexerState.StartIndexer` | backend/src/indexer.ts:19-22 | when both `owner()` and `balanceOf(owner)` succeed, the owner maps to its fetched balance; when either rejects, the map is unchanged; the list is never touched |
| `Indexer.IndexerState.OnTransfer` | backend/src/indexer.ts:28-51 | when the needed `balanceOf` calls succeed, the new balances are `ApplyBalances` of the old ones and the new list is `PushRecent` of the old one; when the sender's read rejects nothing changes; when the receiver's read rejects only the sender's write stays and no record is added; the list stays within 10 and its tie to the event history is kept |
| `Indexer.IndexerState.GetBalances` | backend/src/indexer.ts:55-57 | the result has exactly the key/value pairs of the balance map |
| `Indexer.IndexerState.GetTransfers` | backend/src/indexer.ts:59-61 | the result is the stored list: at most 10 records, the i-th is the i-th most recent event handled |
| `Vesting.Lower` | backend/src/vesting.ts:13 | the lowered string has the input's length, holds no upper-case ASCII letter, and differs from the input only in the case of ASCII letters |
| `Vesting.LowerNormalises` | backend/src/vesting.ts:13 | lowered strings hold no upper-case ASCII letter, and lowering is idempotent |
| `Vesting.LowerEqualIffSameUpToCase` | backend/src/vesting.ts:13 | two strings lower to the same string exactly when they differ only in the case of ASCII letters |
| `Vesting.VestingKey` | backend/src/vesting.ts:12-14 | the key has length len(owner) + len(spender) + 1 and no upper-case letter; the `-` sits at index len(owner), with the lowered owner on its left and the lowered spender on its right |
| `Vesting.KeyCaseInsensitive` | backend/src/vesting.ts:12-14 | any re-casing of owner and spender gives the same key |
| `Vesting.KeyOfLowered` | backend/src/vesting.ts:12-14 | `vestingKey(lower(o), lower(s)) == vestingKey(o, s)` |
| `Vesting.KeyInjective` | backend/src/vesting.ts:12-14 | when the owners hold no `-`, two pairs have the same key if and only if they agree up to case, component by component |
| `Vesting.KeyOrderMatters` | backend/src/vesting.ts:12-14 | without `-`, the swapped pair (s, o) has another key than (o, s) unless o and s agree up to case |
| `Vesting.KeyCollidesOnDash` | backend/src/vesting.ts:13 | with a `-` inside the owner, the distinct pairs ("a-b", "c") and ("a", "b-c") share a key |
| `Vesting.StoreSchedule` | backend/src/vesting.ts:10-14 | storing adds the pair's key, maps it to the schedule, and leaves every other entry unchanged |
| `Vesting.FindCaseInsensitive` | backend/src/vesting.ts:10-14 | looking up a pair and any re-casing of it gives the same result |
| `Vesting.FindAfterStore` | backend/src/vesting.ts:10-14 | a schedule stored for (o, s) is found under any re-casing of (o, s) |
| `Vesting.FindAfterStoreOther` | backend/src/vesting.ts:10-14 | storing for one pair does not change the lookup of a pair that differs beyond case, when the owners hold no `-` |
| `Networks.IsSupportedNetwork` | frontend/src/lib/networks.ts:6-8 | a chain id is supported if and only if it is 31337 or 11155111 |
| `Networks.SupportedNetworksTable` | frontend/src/lib/networks.ts:1-4 | the table's keys are exactly 31337 and 11155111, named "Hardhat" and "Sepolia" |
| `Networks.SupportedIsKeyMembership` | frontend/src/lib/networks.ts:1-8 | because both names are non-empty, support is exactly membership among the table's keys |
| `VestingCard.SliceSplit` | frontend/src/components/VestingCard.tsx:4 | for any k >= 0, `s.slice(0, k) + s.slice(k)` is `s` again |
| `VestingCard.Slice` | frontend/src/components/VestingCard.tsx:4 | `s.slice(0, n)` with n >= 0 is the first min(n, len(s)) characters of `s`, and no slice is longer than `s` |
| `VestingCard.SliceFrom` | frontend/src/components/VestingCard.tsx:4 | `s.slice(-n)` with n > 0 is the last min(n, len(s)) characters of `s` |
| `VestingCard.Short` | frontend/src/components/VestingCard.tsx:3-5 | the result is min(6, n) leading characters of the address, the ellipsis at index min(6, n), then its min(4, n) trailing characters; 11 characters when n >= 10 |
| `VestingCard.ShortOfAddress` | frontend/src/components/VestingCard.tsx:3-5 | a 42-character address shows its first 6 and last 4 characters |
| `VestingCard.ShortOfShortString` | frontend/src/components/VestingCard.tsx:3-5 | a string of at most 4 characters appears whole on both sides of the ellipsis |

## Left out

- The `Transfer` subscription (`capstoneToken.on`) and the `owner` and `balanceOf` calls are network I/O. Their outcomes, success or rejection, are parameters of `StartIndexer` and `OnTransfer`. What happens to a rejected handler promise afterwards is up to the event library and the runtime, and is not modelled.
- `ethers.formatEther` is a library call. Amounts and balances are opaque strings.
- `ethers.ZeroAddress` is written out as the usual forty-zero hex address. The comparison with it is plain string equality, as `!==` is.
- Interleaving of concurrent handler invocations at their `await` points is a concurrency concern. Each `OnTransfer` runs atomically. The two balances are separate parameters, so the sender and receiver reads may still see different chain states.
- `OnTransfer`: it does not fetch a sender balance for the zero address. The model still takes a `fromBalance` parameter, which it ignores in that case.
- `VestingSchedule.lastReleaseBlock` is a JavaScript `number` and is modelled as an unbounded integer. Nothing in the model depends on the field.
- `GetTransfers` returns the stored array itself, so the caller shares it with the indexer. The model returns the sequence by value, so this aliasing is not captured.
- The log lines and the Express routes in backend/src/index.ts are I/O and HTTP plumbing.
- `toLowerCase` is modelled as ASCII lower-casing only, since addresses are hex. Unicode case mapping is not modelled.
- JavaScript strings are sequences of UTF-16 code units. Here they are sequences of Dafny characters, which are Unicode scalar values. `slice` on characters outside the Basic Multilingual Plane is therefore not modelled exactly.
- `isSupportedNetwork` takes a JavaScript `number`. The model takes integers. Non-integer numbers and `NaN` are not keys of the table, so they are unsupported in the source as well.
- The rendering and progress bar of VestingCard.tsx, the React app and hooks, the `fetch` clients, the provider and contract wiring, and the Hardhat scripts and tests are UI, floating-point display or deployment I/O.
- The source has no vesting release arithmetic, next-unlock computation, spend tracking or polling cursor, so none are modelled.
