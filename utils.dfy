/**
 * The pure helpers of the web side (src/lib/utils.ts): the maintenance
 * score the detail views recompute, and the zero guard of `formatBytes`.
 */
module Utils {
  import opened Types
  import Derivation

  /** `1000 * 60 * 60 * 24`. */
  const MsPerDay: int := 86400000

  /** `!lastMergedAt` for `string | null`: null or the empty string. */
  predicate Falsy(lastMergedAt: Option<Stamp>)
  {
    lastMergedAt.None? || lastMergedAt.value.text == ""
  }

  function Distance(now: int, t: int): nat
  {
    if now < t then t - now else now - t
  }

  /** The quotient of two naturals, taken on reals and floored, is their integer quotient. */
  lemma FloorOfQuotient(a: nat, d: int)
    requires d > 0
    ensures (a as real / d as real).Floor == a / d
  {
    var q, m := a / d, a % d;
    assert a as real == q as real * d as real + m as real;
    assert a as real / d as real == q as real + m as real / d as real;
    assert 0.0 <= m as real / d as real < 1.0;
  }

  /**
   * `calculateMaintenanceScore` (src/lib/utils.ts:25-31): `Math.floor` of
   * the distance in milliseconds divided by a day, or 999 for a missing
   * merge.
   */
  function CalculateMaintenanceScore(lastMergedAt: Option<Stamp>, now: int): (r: int)
    ensures Falsy(lastMergedAt) ==> r == 999
    ensures !Falsy(lastMergedAt) ==>
      0 <= r && r * MsPerDay <= Distance(now, lastMergedAt.value.ms) < (r + 1) * MsPerDay
  {
    if Falsy(lastMergedAt) then 999
    else
      var diffTime := Distance(now, lastMergedAt.value.ms);
      FloorOfQuotient(diffTime, MsPerDay);
      (diffTime as real / MsPerDay as real).Floor
  }

  /** A merge d milliseconds ahead of now scores like one d milliseconds behind. */
  lemma Symmetric(text: string, now: int, d: nat)
    ensures CalculateMaintenanceScore(Some(Stamp(text, now + d)), now) ==
            CalculateMaintenanceScore(Some(Stamp(text, now - d)), now)
  {
  }

  /** For a merge in the past, a later now never gives a smaller score. */
  lemma MonotoneInNow(lastMergedAt: Stamp, now1: int, now2: int)
    requires lastMergedAt.ms <= now1 <= now2
    ensures CalculateMaintenanceScore(Some(lastMergedAt), now1) <= CalculateMaintenanceScore(Some(lastMergedAt), now2)
  {
    var a, b := now1 - lastMergedAt.ms, now2 - lastMergedAt.ms;
    if lastMergedAt.text != "" {
      FloorOfQuotient(a, MsPerDay);
      FloorOfQuotient(b, MsPerDay);
      DivMonotone(a, b, MsPerDay);
    }
  }

  lemma DivMonotone(a: nat, b: nat, d: int)
    requires a <= b && d > 0
    ensures a / d <= b / d
  {
    FloorOfQuotient(a, d);
    FloorOfQuotient(b, d);
    assert a as real / d as real <= b as real / d as real;
  }

  /** A merge exactly n whole days before now scores n. */
  lemma ExactDays(text: string, now: int, n: nat)
    requires text != ""
    ensures CalculateMaintenanceScore(Some(Stamp(text, now - n * MsPerDay)), now) == n
  {
    assert Distance(now, now - n * MsPerDay) == n * MsPerDay;
    assert (n * MsPerDay) as real / MsPerDay as real == n as real;
  }

  /** A merge exactly 999 days ago cannot be told apart from no merge at all. */
  lemma NineHundredNinetyNineDaysLikeNoMerge(text: string, now: int)
    requires text != ""
    ensures CalculateMaintenanceScore(Some(Stamp(text, now - 999 * MsPerDay)), now) ==
            CalculateMaintenanceScore(None, now)
  {
    ExactDays(text, now, 999);
  }

  /** The web copy and the miner copy (miner/miner.js:133-138) agree on every input. */
  lemma AgreesWithMiner(lastMergedAt: Option<Stamp>, now: int)
    ensures CalculateMaintenanceScore(lastMergedAt, now) == Derivation.MaintenanceScore(lastMergedAt, now)
  {
    if !Falsy(lastMergedAt) {
      FloorOfQuotient(Distance(now, lastMergedAt.value.ms), MsPerDay);
    }
  }

  /**
   * A byte count as JavaScript may hand it over: a number, or a falsy
   * non-number (`undefined`, `null`, `NaN`).
   */
  datatype ByteCount = Number(bytes: real) | NotANumber

  /** `!bytes || bytes === 0`. */
  predicate FalsyBytes(b: ByteCount)
  {
    b.NotANumber? || b.bytes == 0.0
  }

  /** `decimals < 0 ? 0 : decimals`. */
  function Precision(decimals: int): (dm: nat)
    ensures decimals >= 0 ==> dm == decimals
    ensures decimals < 0 ==> dm == 0
  {
    if decimals < 0 then 0 else decimals
  }

  /**
   * `formatBytes` (src/lib/utils.ts:8-18): the zero guard; the unit
   * formatting of a non-zero count is the parameter `inUnits`.
   */
  function FormatBytes(b: ByteCount, decimals: int, inUnits: (real, nat) -> string): (r: string)
    ensures FalsyBytes(b) ==> r == "0 Bytes"
    ensures !FalsyBytes(b) ==> r == inUnits(b.bytes, Precision(decimals))
  {
    if FalsyBytes(b) then "0 Bytes" else inUnits(b.bytes, Precision(decimals))
  }

  /** Zero and every falsy count print "0 Bytes", whatever precision and unit formatting are asked for. */
  lemma ZeroBytes(decimals: int, inUnits: (real, nat) -> string)
    ensures FormatBytes(Number(0.0), decimals, inUnits) == "0 Bytes"
    ensures FormatBytes(NotANumber, decimals, inUnits) == "0 Bytes"
  {
  }
}
