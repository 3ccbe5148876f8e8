/**
 * backend/src/vesting.ts: the `VestingSchedule` record, the table
 * `vestingSchedules` that holds schedules, and `vestingKey`, the
 * case-insensitive composite key `lower(owner) + "-" + lower(spender)`
 * under which a schedule is stored for an (owner, spender) pair.
 */
module Vesting {
  import opened Wrappers

  /** `VestingSchedule`; `bigint` amounts and the `number` block height as integers. */
  datatype VestingSchedule = VestingSchedule(
    owner: string,
    spender: string,
    total: int,
    released: int,
    step: int,
    lastReleaseBlock: int)

  // ----- ASCII lower-casing (`String.prototype.toLowerCase` on hex addresses) -----

  predicate IsUpper(c: char) { 'A' <= c <= 'Z' }

  function LowerChar(c: char): (d: char)
    ensures !IsUpper(d)
  {
    if IsUpper(c) then (c as int - 'A' as int + 'a' as int) as char else c
  }

  /**
   * Lower-casing, character by character: the result is a re-casing of
   * the input that holds no upper-case letter.
   */
  function Lower(s: string): (r: string)
    ensures |r| == |s|
    ensures forall i :: 0 <= i < |s| ==> r[i] == LowerChar(s[i])
    ensures NoUpper(r) && SameUpToCase(s, r)
  {
    seq(|s|, i requires 0 <= i < |s| => LowerChar(s[i]))
  }

  predicate NoUpper(s: string) { forall i :: 0 <= i < |s| ==> !IsUpper(s[i]) }

  /**
   * Two strings that differ at most in the case of their ASCII letters
   * (the reference notion of "the same address, re-cased").
   */
  predicate SameUpToCase(a: string, b: string)
  {
    |a| == |b| &&
    forall i :: 0 <= i < |a| ==> (a[i] == b[i] || (IsUpper(a[i]) && b[i] as int == a[i] as int + 32)
                                            || (IsUpper(b[i]) && a[i] as int == b[i] as int + 32))
  }

  /** Lower-casing leaves no upper-case letter and is idempotent. */
  lemma LowerNormalises(s: string)
    ensures NoUpper(Lower(s))
    ensures Lower(Lower(s)) == Lower(s)
  {
  }

  /** Lower-casing identifies exactly the strings that agree up to case. */
  lemma LowerEqualIffSameUpToCase(a: string, b: string)
    ensures Lower(a) == Lower(b) <==> SameUpToCase(a, b)
  {
    if Lower(a) == Lower(b) {
      forall i | 0 <= i < |a|
        ensures a[i] == b[i] || (IsUpper(a[i]) && b[i] as int == a[i] as int + 32)
                            || (IsUpper(b[i]) && a[i] as int == b[i] as int + 32)
      {
        assert LowerChar(a[i]) == Lower(a)[i] == Lower(b)[i] == LowerChar(b[i]);
      }
    }
    if SameUpToCase(a, b) {
      assert forall i :: 0 <= i < |a| ==> Lower(a)[i] == Lower(b)[i];
    }
  }

  // ----- the key -----

  /** `vestingKey(owner, spender)`. */
  function VestingKey(owner: string, spender: string): (k: string)
    ensures |k| == |owner| + |spender| + 1
    ensures NoUpper(k)
    // left of the separator the lowered owner, right of it the lowered spender
    ensures k[|owner|] == '-'
    ensures k[..|owner|] == Lower(owner) && k[|owner| + 1..] == Lower(spender)
  {
    Lower(owner) + "-" + Lower(spender)
  }

  /** The key ignores the case of both arguments. */
  lemma KeyCaseInsensitive(owner: string, spender: string, owner': string, spender': string)
    requires SameUpToCase(owner, owner') && SameUpToCase(spender, spender')
    ensures VestingKey(owner, spender) == VestingKey(owner', spender')
  {
    LowerEqualIffSameUpToCase(owner, owner');
    LowerEqualIffSameUpToCase(spender, spender');
  }

  /** Normalising the arguments first does not change the key. */
  lemma KeyOfLowered(owner: string, spender: string)
    ensures VestingKey(Lower(owner), Lower(spender)) == VestingKey(owner, spender)
  {
    LowerNormalises(owner);
    LowerNormalises(spender);
  }

  lemma LowerCharIsDash(c: char)
    ensures LowerChar(c) == '-' <==> c == '-'
  {
  }

  /**
   * When the owners contain no `-` (true of hex addresses), two pairs get
   * the same key exactly when they agree up to case, component by component.
   */
  lemma KeyInjective(owner: string, spender: string, owner': string, spender': string)
    requires '-' !in owner && '-' !in owner'
    ensures VestingKey(owner, spender) == VestingKey(owner', spender') <==>
              SameUpToCase(owner, owner') && SameUpToCase(spender, spender')
  {
    var k, k' := VestingKey(owner, spender), VestingKey(owner', spender');
    if k == k' {
      // the first `-` of a key marks the end of the owner part
      forall i | 0 <= i < |owner| ensures k[i] != '-' {
        LowerCharIsDash(owner[i]);
        assert k[i] == Lower(owner)[i];
      }
      forall i | 0 <= i < |owner'| ensures k'[i] != '-' {
        LowerCharIsDash(owner'[i]);
        assert k'[i] == Lower(owner')[i];
      }
      assert |owner| == |owner'|;
      assert Lower(owner) == k[..|owner|] == k'[..|owner'|] == Lower(owner');
      assert Lower(spender) == k[|owner| + 1..] == k'[|owner'| + 1..] == Lower(spender');
      LowerEqualIffSameUpToCase(owner, owner');
      LowerEqualIffSameUpToCase(spender, spender');
    } else if SameUpToCase(owner, owner') && SameUpToCase(spender, spender') {
      KeyCaseInsensitive(owner, spender, owner', spender');
    }
  }

  /** Swapping owner and spender gives another key unless they agree up to case. */
  lemma KeyOrderMatters(a: string, b: string)
    requires '-' !in a && '-' !in b
    requires !SameUpToCase(a, b)
    ensures VestingKey(a, b) != VestingKey(b, a)
  {
    KeyInjective(a, b, b, a);
  }

  /** With a `-` inside the owner the separator is ambiguous: distinct pairs collide. */
  lemma KeyCollidesOnDash()
    ensures VestingKey("a-b", "c") == VestingKey("a", "b-c")
    ensures !SameUpToCase("a-b", "a")
  {
    assert VestingKey("a-b", "c") == "a-b-c";
    assert VestingKey("a", "b-c") == "a-b-c";
  }

  // ----- the schedule table `vestingSchedules`, indexed through the key -----

  type ScheduleTable = map<string, VestingSchedule>

  /** `vestingSchedules.set(vestingKey(owner, spender), schedule)`. */
  function StoreSchedule(table: ScheduleTable, owner: string, spender: string, schedule: VestingSchedule): (t: ScheduleTable)
    ensures t.Keys == table.Keys + {VestingKey(owner, spender)}
    ensures t[VestingKey(owner, spender)] == schedule
    ensures forall k :: k in table && k != VestingKey(owner, spender) ==> t[k] == table[k]
  {
    table[VestingKey(owner, spender) := schedule]
  }

  /** `vestingSchedules.get(vestingKey(owner, spender))`, `undefined` as `None`. */
  function FindSchedule(table: ScheduleTable, owner: string, spender: string): (r: Option<VestingSchedule>)
    ensures r.Some? <==> VestingKey(owner, spender) in table
    ensures r.Some? ==> r.value == table[VestingKey(owner, spender)]
  {
    var k := VestingKey(owner, spender);
    if k in table then Some(table[k]) else None
  }

  /** The lookup ignores the case of both arguments. */
  lemma FindCaseInsensitive(table: ScheduleTable, owner: string, spender: string, owner': string, spender': string)
    requires SameUpToCase(owner, owner') && SameUpToCase(spender, spender')
    ensures FindSchedule(table, owner, spender) == FindSchedule(table, owner', spender')
  {
    KeyCaseInsensitive(owner, spender, owner', spender');
  }

  /** A schedule stored for a pair is found again under any re-casing of the pair. */
  lemma FindAfterStore(table: ScheduleTable, owner: string, spender: string, schedule: VestingSchedule,
                         owner': string, spender': string)
    requires SameUpToCase(owner, owner') && SameUpToCase(spender, spender')
    ensures FindSchedule(StoreSchedule(table, owner, spender, schedule), owner', spender') == Some(schedule)
  {
    KeyCaseInsensitive(owner, spender, owner', spender');
  }

  /** Storing for one pair leaves the lookup of every other pair as it was. */
  lemma FindAfterStoreOther(table: ScheduleTable, owner: string, spender: string, schedule: VestingSchedule,
                            owner': string, spender': string)
    requires '-' !in owner && '-' !in owner'
    requires !(SameUpToCase(owner, owner') && SameUpToCase(spender, spender'))
    ensures FindSchedule(StoreSchedule(table, owner, spender, schedule), owner', spender') ==
            FindSchedule(table, owner', spender')
  {
    KeyInjective(owner, spender, owner', spender');
  }
}
