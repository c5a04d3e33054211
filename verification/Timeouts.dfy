/** The timeout arithmetic that keeps the helper's deadlines below the daemon's. */
module Timeouts {

  import opened Wrappers

  const UI_TIMEOUT_MARGIN_MS := 5_000
  const BACKSTOP_GRACE_MS := 2_000

  /** Seconds in milliseconds, saturating. */
  function SaturatingMillis(seconds: u64): u64 {
    if seconds * 1000 < TWO_64 then seconds * 1000 else TWO_64 - 1
  }

  function SaturatingSub(a: u64, b: u64): u64 {
    if a < b then 0 else a - b
  }

  function Clamp(n: u64, low: u64, high: u64): (r: u64)
    requires low <= high
    ensures low <= r <= high
  {
    if n < low then low else if n > high then high else n
  }

  /** The time the helper is given, from the configured prompt timeout in seconds. */
  function UiTimeoutMs(promptTimeoutSeconds: u64): u32 {
    Clamp(SaturatingSub(SaturatingMillis(promptTimeoutSeconds), UI_TIMEOUT_MARGIN_MS), 2_000, TWO_32 - 1)
  }

  /** When the daemon gives up reading, and when the worker's backstop denies. */
  function DaemonTimeoutMs(promptTimeoutSeconds: u64): nat {
    promptTimeoutSeconds * 1000
  }

  function BackstopMs(promptTimeoutSeconds: u64): nat {
    UiTimeoutMs(promptTimeoutSeconds) + BACKSTOP_GRACE_MS
  }

  /** Exact thresholds, for every 64-bit configuration value: the helper's own
  timer ends before the daemon's from 3 seconds on, the backstop's from 5 seconds
  on, and the helper's timer always ends before its backstop. */
  lemma TimeoutsAreOrdered(promptTimeoutSeconds: u64)
    ensures UiTimeoutMs(promptTimeoutSeconds) < DaemonTimeoutMs(promptTimeoutSeconds) <==> promptTimeoutSeconds >= 3
    ensures BackstopMs(promptTimeoutSeconds) < DaemonTimeoutMs(promptTimeoutSeconds) <==> promptTimeoutSeconds >= 5
    ensures UiTimeoutMs(promptTimeoutSeconds) < BackstopMs(promptTimeoutSeconds)
  {
    var ms := SaturatingMillis(promptTimeoutSeconds);
    assert promptTimeoutSeconds >= 8 ==> UiTimeoutMs(promptTimeoutSeconds) <= ms - UI_TIMEOUT_MARGIN_MS;
    assert ms <= DaemonTimeoutMs(promptTimeoutSeconds);
  }

  /** The timeouts in full: the helper has 5 seconds less than the daemon waits, at least
  2 seconds and at most 2^32 - 1 milliseconds; the worker's backstop has 2 more. */
  lemma TimeoutsAre(promptTimeoutSeconds: u64)
    ensures promptTimeoutSeconds <= 7 ==> UiTimeoutMs(promptTimeoutSeconds) == 2_000
    ensures 7 <= promptTimeoutSeconds <= 4_294_972 ==>
              UiTimeoutMs(promptTimeoutSeconds) + 5_000 == 1_000 * promptTimeoutSeconds
    ensures promptTimeoutSeconds > 4_294_972 ==> UiTimeoutMs(promptTimeoutSeconds) == 4_294_967_295
    ensures BackstopMs(promptTimeoutSeconds) == UiTimeoutMs(promptTimeoutSeconds) + 2_000
    ensures DaemonTimeoutMs(promptTimeoutSeconds) == 1_000 * promptTimeoutSeconds
  {
  }
}
