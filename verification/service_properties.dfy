/**
  Properties that relate several service calls: idempotence of get-or-create,
  the collision loop as "first fresh candidate", lookups after delete and
  update, the table invariant under any run of requests, and the interplay of
  the generator's length clamp with the entity's key-size constraint.
 */
module ServiceProperties {
  import opened Wrappers
  import opened Errors
  import opened RandomKeyGenerator
  import opened MiniUrlEntity
  import opened MiniUrlService

  /**
    The table invariant: every row satisfies the entity constraints, and its
    timestamps were taken from a clock that now reads `clock`.
   */
  predicate Healthy(s: Store, clock: Instant) {
    forall k :: k in s ==> ValidMiniUrl(s[k]) && Stamped(s[k], clock)
  }

  /** Asking twice for the same URL returns the same row, and the second call changes nothing. */
  lemma GetOrCreateIsIdempotent(
    isValidUrl: string -> bool, g: KeyGenerator, s: Store, rolls: seq<int>, fullUrl: string, now: Instant, later: Instant
  )
    requires RollsIn(rolls, |g.alphabet|)
    requires GetOrCreateMiniUrl(isValidUrl, g, s, rolls, fullUrl, now).Success?
    ensures var first := GetOrCreateMiniUrl(isValidUrl, g, s, rolls, fullUrl, now).value;
      && RollsIn(first.rolls, |g.alphabet|)
      && GetOrCreateMiniUrl(isValidUrl, g, first.store, first.rolls, fullUrl, later) == Success(first)
  {
  }

  /** Some candidate is free in the store. */
  predicate HasFreshCandidate(s: Store, cs: seq<string>) {
    exists j :: 0 <= j < |cs| && cs[j] !in s
  }

  /** `key` is the first candidate free in the store: every candidate before it is taken. */
  predicate IsFirstFresh(s: Store, cs: seq<string>, key: string) {
    exists j :: 0 <= j < |cs| && cs[j] == key && key !in s && forall i :: 0 <= i < j ==> cs[i] in s
  }

  /**
    The collision loop returns the first candidate the store does not hold,
    having passed over every earlier one because it was taken; it fails only
    when every candidate the stream yields is taken.
   */
  lemma {:induction false} UniqueMiniKeyIsFirstFreshCandidate(s: Store, g: KeyGenerator, rolls: seq<int>)
    requires |g.alphabet| > 0 && RollsIn(rolls, |g.alphabet|)
    ensures GenerateUniqueMiniKey(s, g, rolls).Success? <==> HasFreshCandidate(s, Candidates(g, rolls))
    ensures GenerateUniqueMiniKey(s, g, rolls).Success? ==>
      IsFirstFresh(s, Candidates(g, rolls), GenerateUniqueMiniKey(s, g, rolls).value.key)
    decreases |rolls|
  {
    var cs := Candidates(g, rolls);
    var r := GenerateUniqueMiniKey(s, g, rolls);
    if |rolls| >= g.keyLength {
      var d := GenerateKey(g, rolls).value;
      var tail := Candidates(g, d.rest);
      assert cs == [d.key] + tail;
      if d.key in s {
        assert r == GenerateUniqueMiniKey(s, g, d.rest);
        UniqueMiniKeyIsFirstFreshCandidate(s, g, d.rest);
        TakenHeadIsSkipped(s, d.key, tail, if r.Success? then r.value.key else d.key);
      } else {
        assert r == Success(d);
        assert cs[0] == d.key;
      }
    } else {
      assert cs == [];
    }
  }

  /** A taken first candidate changes neither whether a free one exists nor which is first. */
  lemma TakenHeadIsSkipped(s: Store, head: string, tail: seq<string>, key: string)
    requires head in s
    ensures HasFreshCandidate(s, [head] + tail) <==> HasFreshCandidate(s, tail)
    ensures IsFirstFresh(s, tail, key) ==> IsFirstFresh(s, [head] + tail, key)
  {
    var cs := [head] + tail;
    if HasFreshCandidate(s, cs) {
      var j :| 0 <= j < |cs| && cs[j] !in s;
      assert tail[j - 1] == cs[j];
    }
    if HasFreshCandidate(s, tail) {
      var j :| 0 <= j < |tail| && tail[j] !in s;
      assert cs[j + 1] == tail[j];
    }
    if IsFirstFresh(s, tail, key) {
      var j :| 0 <= j < |tail| && tail[j] == key && key !in s && forall i :: 0 <= i < j ==> tail[i] in s;
      assert cs[j + 1] == key;
      forall i | 0 <= i < j + 1
        ensures cs[i] in s
      {
        if i > 0 {
          assert cs[i] == tail[i - 1];
        }
      }
    }
  }

  /**
    A get-or-create that adds a row files it under the first candidate key the
    store did not hold; one that runs out of stream found every candidate taken.
   */
  lemma CreatedKeyIsFirstFreshCandidate(
    isValidUrl: string -> bool, g: KeyGenerator, s: Store, rolls: seq<int>, fullUrl: string, now: Instant
  )
    requires RollsIn(rolls, |g.alphabet|)
    requires isValidUrl(fullUrl) && !HasFullUrl(s, fullUrl)
    ensures var r := GetOrCreateMiniUrl(isValidUrl, g, s, rolls, fullUrl, now);
      r.Success? ==> IsFirstFresh(s, Candidates(g, rolls), r.value.miniUrl.miniKey)
    ensures var r := GetOrCreateMiniUrl(isValidUrl, g, s, rolls, fullUrl, now);
      r == Failure(RetriesExhausted) ==> !HasFreshCandidate(s, Candidates(g, rolls))
  {
    if |g.alphabet| > 0 {
      UniqueMiniKeyIsFirstFreshCandidate(s, g, rolls);
    }
  }

  /** Whenever the stream yields a free candidate and the new row would be valid, get-or-create adds it. */
  lemma CreateSucceedsWithFreshCandidate(
    isValidUrl: string -> bool, g: KeyGenerator, s: Store, rolls: seq<int>, fullUrl: string, now: Instant
  )
    requires |g.alphabet| > 0 && RollsIn(rolls, |g.alphabet|)
    requires g.keyLength <= MiniKeyMaxSize
    requires isValidUrl(fullUrl) && !IsBlank(fullUrl) && |fullUrl| <= FullUrlMaxSize
    requires !HasFullUrl(s, fullUrl)
    requires exists j :: 0 <= j < |Candidates(g, rolls)| && Candidates(g, rolls)[j] !in s
    ensures GetOrCreateMiniUrl(isValidUrl, g, s, rolls, fullUrl, now).Success?
  {
    UniqueMiniKeyIsFirstFreshCandidate(s, g, rolls);
  }

  /**
    Cross-file: the generator clamps only from below, the entity caps keys at
    32 characters, so a generated key fits the column exactly when the
    configured length is at most 32.
   */
  lemma GeneratedKeyFitsColumnIff(alphabet: string, configured: Int32, rolls: seq<int>)
    requires |alphabet| > 0 && RollsIn(rolls, |alphabet|)
    requires |rolls| >= ValidateKeyLength(configured)
    ensures var r := GenerateKey(New(alphabet, configured), rolls);
      && r.Success?
      && (MiniKeyMinSize <= |r.value.key| <= MiniKeyMaxSize <==> configured <= MiniKeyMaxSize)
  {
  }

  /** With a key length above 32, no URL that is not already stored can ever be shortened. */
  lemma OversizedKeyLengthNeverCreates(
    isValidUrl: string -> bool, g: KeyGenerator, s: Store, rolls: seq<int>, fullUrl: string, now: Instant
  )
    requires RollsIn(rolls, |g.alphabet|)
    requires g.keyLength > MiniKeyMaxSize
    requires !HasFullUrl(s, fullUrl)
    ensures GetOrCreateMiniUrl(isValidUrl, g, s, rolls, fullUrl, now).Failure?
  {
  }

  /** After a delete the key is gone for good, and every other key reads as before. */
  lemma DeleteThenGetIsNotFound(s: Store, miniKey: string, other: string)
    requires DeleteMiniUrl(s, miniKey).Success?
    ensures GetMiniUrlByMiniKey(DeleteMiniUrl(s, miniKey).value, miniKey) == Failure(NotFound(miniKey))
    ensures other != miniKey ==>
      GetMiniUrlByMiniKey(DeleteMiniUrl(s, miniKey).value, other) == GetMiniUrlByMiniKey(s, other)
  {
  }

  /**
    After an update, a lookup shows the new URL under the same key and the same
    creation instant, and `updatedAt` has not gone backwards.
   */
  lemma UpdateThenGet(
    isValidUrl: string -> bool, s: Store, miniKey: string, newFullUrl: string, clock: Instant, now: Instant
  )
    requires Healthy(s, clock) && clock <= now
    requires UpdateMiniUrl(isValidUrl, s, miniKey, newFullUrl, now).Success?
    ensures var got := GetMiniUrlByMiniKey(UpdateMiniUrl(isValidUrl, s, miniKey, newFullUrl, now).value.store, miniKey);
      && got.Success?
      && got.value.miniKey == miniKey
      && got.value.fullUrl == newFullUrl
      && got.value.createdAt == s[miniKey].createdAt
      && s[miniKey].updatedAt <= got.value.updatedAt
  {
  }

  /**
    Setting a row's URL to the one it already has is a no-op: no write, no new
    timestamp, and no validation, so even a row that breaks the constraints
    comes back as stored.
   */
  lemma UpdateToCurrentUrlChangesNothing(isValidUrl: string -> bool, s: Store, miniKey: string, now: Instant)
    requires miniKey in s
    requires isValidUrl(s[miniKey].fullUrl)
    ensures UpdateMiniUrl(isValidUrl, s, miniKey, s[miniKey].fullUrl, now) == Success(Updated(s[miniKey], s))
  {
  }

  /** A later clock reading keeps the invariant. */
  lemma HealthyLater(s: Store, clock: Instant, now: Instant)
    requires Healthy(s, clock) && clock <= now
    ensures Healthy(s, now)
  {
  }

  lemma GetOrCreatePreservesHealthy(
    isValidUrl: string -> bool, g: KeyGenerator, s: Store, rolls: seq<int>, fullUrl: string, clock: Instant, now: Instant
  )
    requires RollsIn(rolls, |g.alphabet|)
    requires Healthy(s, clock) && clock <= now
    requires GetOrCreateMiniUrl(isValidUrl, g, s, rolls, fullUrl, now).Success?
    ensures Healthy(GetOrCreateMiniUrl(isValidUrl, g, s, rolls, fullUrl, now).value.store, now)
  {
    HealthyLater(s, clock, now);
  }

  lemma UpdatePreservesHealthy(
    isValidUrl: string -> bool, s: Store, miniKey: string, newFullUrl: string, clock: Instant, now: Instant
  )
    requires Healthy(s, clock) && clock <= now
    requires UpdateMiniUrl(isValidUrl, s, miniKey, newFullUrl, now).Success?
    ensures Healthy(UpdateMiniUrl(isValidUrl, s, miniKey, newFullUrl, now).value.store, now)
  {
    HealthyLater(s, clock, now);
  }

  /** A state-changing request, as the transport layer would issue it. */
  datatype Request =
    | Shorten(fullUrl: string)
    | Edit(miniKey: string, fullUrl: string)
    | Remove(miniKey: string)

  /** A request and the clock reading at the time it is served. */
  datatype Timed = Timed(request: Request, at: Instant)

  /** The table and the unused random stream between requests. */
  datatype Session = Session(store: Store, rolls: seq<int>)

  /** Serve one request; a failed request leaves the session as it was. */
  ghost function Serve(isValidUrl: string -> bool, g: KeyGenerator, ss: Session, t: Timed): (ss': Session)
    requires RollsIn(ss.rolls, |g.alphabet|)
    ensures RollsIn(ss'.rolls, |g.alphabet|)
  {
    match t.request
    case Shorten(u) =>
      (match GetOrCreateMiniUrl(isValidUrl, g, ss.store, ss.rolls, u, t.at)
       case Success(c) => Session(c.store, c.rolls)
       case Failure(_) => ss)
    case Edit(k, u) =>
      (match UpdateMiniUrl(isValidUrl, ss.store, k, u, t.at)
       case Success(up) => Session(up.store, ss.rolls)
       case Failure(_) => ss)
    case Remove(k) =>
      (match DeleteMiniUrl(ss.store, k)
       case Success(s') => Session(s', ss.rolls)
       case Failure(_) => ss)
  }

  /** Serve the requests in order. */
  ghost function Run(isValidUrl: string -> bool, g: KeyGenerator, ss: Session, ts: seq<Timed>): (ss': Session)
    requires RollsIn(ss.rolls, |g.alphabet|)
    ensures RollsIn(ss'.rolls, |g.alphabet|)
    decreases |ts|
  {
    if ts == [] then ss else Run(isValidUrl, g, Serve(isValidUrl, g, ss, ts[0]), ts[1..])
  }

  /** The requests are served at instants of a clock that never runs backwards and already reads `clock`. */
  predicate ServedFrom(clock: Instant, ts: seq<Timed>) {
    && (forall i, j :: 0 <= i < j < |ts| ==> ts[i].at <= ts[j].at)
    && (forall i :: 0 <= i < |ts| ==> clock <= ts[i].at)
  }

  /**
    Under a non-decreasing clock every run of requests keeps the table
    invariant: all rows valid, `createdAt <= updatedAt`, nothing stamped in the future.
   */
  lemma {:induction false} RunPreservesHealthy(
    isValidUrl: string -> bool, g: KeyGenerator, ss: Session, clock: Instant, ts: seq<Timed>
  )
    requires RollsIn(ss.rolls, |g.alphabet|)
    requires Healthy(ss.store, clock)
    requires ServedFrom(clock, ts)
    ensures Healthy(Run(isValidUrl, g, ss, ts).store, if ts == [] then clock else ts[|ts| - 1].at)
    decreases |ts|
  {
    if ts != [] {
      var t := ts[0];
      var next := Serve(isValidUrl, g, ss, t);
      match t.request {
        case Shorten(u) =>
          if GetOrCreateMiniUrl(isValidUrl, g, ss.store, ss.rolls, u, t.at).Success? {
            GetOrCreatePreservesHealthy(isValidUrl, g, ss.store, ss.rolls, u, clock, t.at);
          } else {
            HealthyLater(ss.store, clock, t.at);
          }
        case Edit(k, u) =>
          if UpdateMiniUrl(isValidUrl, ss.store, k, u, t.at).Success? {
            UpdatePreservesHealthy(isValidUrl, ss.store, k, u, clock, t.at);
          } else {
            HealthyLater(ss.store, clock, t.at);
          }
        case Remove(k) =>
          HealthyLater(ss.store, clock, t.at);
      }
      assert Healthy(next.store, t.at);
      assert ServedFrom(t.at, ts[1..]) by {
        forall i | 0 <= i < |ts[1..]|
          ensures t.at <= ts[1..][i].at
        {
          assert ts[1..][i] == ts[i + 1];
        }
      }
      RunPreservesHealthy(isValidUrl, g, next, t.at, ts[1..]);
    }
  }
}
