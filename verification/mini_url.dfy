/**
  The `MiniUrl` entity: one row of the `mini_urls` table, its column
  constraints, and the lifecycle hooks that stamp its timestamps.

  Time is a natural-number clock reading supplied by the caller in place of
  `Instant.now()`.
 */
module MiniUrlEntity {

  type Instant = nat

  /** Size bounds of the `miniKey` column. */
  const MiniKeyMinSize: nat := 7
  const MiniKeyMaxSize: nat := 32
  /** Upper size bound of the `fullUrl` column. */
  const FullUrlMaxSize: nat := 2048

  datatype MiniUrl = MiniUrl(miniKey: string, fullUrl: string, createdAt: Instant, updatedAt: Instant)

  /**
    Blank in the sense of bean validation's not-blank check: nothing is left
    once `String.trim` has removed every character at or below U+0020.
   */
  predicate IsBlank(s: string) {
    forall i :: 0 <= i < |s| ==> s[i] <= ' '
  }

  /** The row satisfies the entity's size and not-blank constraints. */
  predicate ValidMiniUrl(m: MiniUrl) {
    && MiniKeyMinSize <= |m.miniKey| <= MiniKeyMaxSize
    && !IsBlank(m.fullUrl)
    && |m.fullUrl| <= FullUrlMaxSize
  }

  /** A valid row keeps its key within [7, 32] and its URL non-empty and within 2048 characters. */
  lemma ValidMiniUrlBounds(m: MiniUrl)
    requires ValidMiniUrl(m)
    ensures 7 <= |m.miniKey| <= 32
    ensures 0 < |m.fullUrl| <= 2048
  {
  }

  /** Timestamps were taken from a clock that now reads `clock`, creation no later than the last update. */
  predicate Stamped(m: MiniUrl, clock: Instant) {
    m.createdAt <= m.updatedAt <= clock
  }

  /**
    A new row with the pre-persist hook applied: `createdAt` and `updatedAt`
    are the same instant.
   */
  function OnCreate(miniKey: string, fullUrl: string, now: Instant): (m: MiniUrl)
    ensures m.miniKey == miniKey && m.fullUrl == fullUrl
    ensures m.createdAt == now && m.updatedAt == now
    ensures Stamped(m, now)
  {
    MiniUrl(miniKey, fullUrl, now, now)
  }

  /**
    The pre-update hook: refreshes `updatedAt` only. `createdAt` is a
    non-updatable column and the hook leaves key and URL alone.
   */
  function OnUpdate(m: MiniUrl, now: Instant): (m': MiniUrl)
    ensures m'.miniKey == m.miniKey && m'.fullUrl == m.fullUrl && m'.createdAt == m.createdAt
    ensures m'.updatedAt == now
    ensures forall clock: Instant :: Stamped(m, clock) && clock <= now ==> Stamped(m', now)
  {
    m.(updatedAt := now)
  }

  /** The row after a series of updates, flushed at the instants `times` in order. */
  function UpdateAll(m: MiniUrl, times: seq<Instant>): (m': MiniUrl)
    ensures m'.miniKey == m.miniKey && m'.fullUrl == m.fullUrl && m'.createdAt == m.createdAt
    ensures times != [] ==> m'.updatedAt == times[|times| - 1]
    ensures times == [] ==> m' == m
    decreases |times|
  {
    if times == [] then m else UpdateAll(OnUpdate(m, times[0]), times[1..])
  }

  /** The instants are read from a clock that never runs backwards and already reads `clock`. */
  predicate ClockFrom(clock: Instant, times: seq<Instant>) {
    && (forall i, j :: 0 <= i < j < |times| ==> times[i] <= times[j])
    && (forall i :: 0 <= i < |times| ==> clock <= times[i])
  }

  /**
    With a non-decreasing clock, `createdAt <= updatedAt` holds after creation
    and after any sequence of updates.
   */
  lemma UpdatesKeepStamped(m: MiniUrl, clock: Instant, times: seq<Instant>)
    requires Stamped(m, clock)
    requires ClockFrom(clock, times)
    ensures Stamped(UpdateAll(m, times), if times == [] then clock else times[|times| - 1])
  {
  }

  /** A freshly created row stays consistent under any later updates from a non-decreasing clock. */
  lemma CreatedThenUpdatedIsStamped(miniKey: string, fullUrl: string, now: Instant, times: seq<Instant>)
    requires ClockFrom(now, times)
    ensures var m := UpdateAll(OnCreate(miniKey, fullUrl, now), times);
      m.createdAt == now && m.createdAt <= m.updatedAt
  {
    UpdatesKeepStamped(OnCreate(miniKey, fullUrl, now), now, times);
  }

  /** `equals`: two rows are equal exactly when all four fields are. */
  function Equals(a: MiniUrl, b: MiniUrl): (eq: bool)
    ensures eq <==> a == b
  {
    && a.miniKey == b.miniKey
    && a.fullUrl == b.fullUrl
    && a.createdAt == b.createdAt
    && a.updatedAt == b.updatedAt
  }
}
