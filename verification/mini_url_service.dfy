/**
  The mapping service: get-or-create, lookup, update, delete and list over
  the `mini_urls` table, as pure transitions of a store keyed by `miniKey`.

  Collaborators are parameters: the URL validator is a predicate
  `isValidUrl`, the random source is the stream `rolls` of the key generator,
  and the clock reading `now` stands for `Instant.now()` at flush time. A
  failure leaves the store as it was (the caller keeps its old store).
 */
module MiniUrlService {
  import opened Wrappers
  import opened Errors
  import opened RandomKeyGenerator
  import opened MiniUrlEntity

  /** The table: each row is found under its own primary key. */
  type Store = s: map<string, MiniUrl> | KeyedByMiniKey(s) witness map[]

  predicate KeyedByMiniKey(s: map<string, MiniUrl>) {
    forall k :: k in s ==> s[k].miniKey == k
  }

  /** Nothing but the row under `key` differs between the two stores. */
  predicate SameExcept(s: Store, s': Store, key: string) {
    && s.Keys - {key} == s'.Keys - {key}
    && forall k :: k in s && k != key ==> k in s' && s[k] == s'[k]
  }

  /** Some stored row carries exactly this URL (no normalisation). */
  predicate HasFullUrl(s: Store, fullUrl: string) {
    exists k :: k in s && s[k].fullUrl == fullUrl
  }

  /**
    `findByFullUrl`: some stored row whose URL equals the argument, or none.
    Which row, when several match, is the repository's choice.
   */
  ghost function FindByFullUrl(s: Store, fullUrl: string): (r: Option<MiniUrl>)
    ensures r.None? <==> !HasFullUrl(s, fullUrl)
    ensures r.Some? ==> r.value.miniKey in s && s[r.value.miniKey] == r.value && r.value.fullUrl == fullUrl
  {
    if HasFullUrl(s, fullUrl) then
      var k :| k in s && s[k].fullUrl == fullUrl; Some(s[k])
    else None
  }

  /**
    `repository.save`: bean validation of the row, then the row is written
    under its key, inserted or replacing the row that was there.
   */
  function Save(s: Store, m: MiniUrl): (r: Result<Store, Error>)
    ensures r.Success? <==> ValidMiniUrl(m)
    ensures r.Failure? ==> r.error == ConstraintViolation
    ensures r.Success? ==> m.miniKey in r.value && r.value[m.miniKey] == m && SameExcept(s, r.value, m.miniKey)
  {
    if ValidMiniUrl(m) then Success(s[m.miniKey := m]) else Failure(ConstraintViolation)
  }

  /**
    `generateUniqueMiniKeyAsync` with `handleMiniKeyAlreadyExists`: generate a
    key, probe the store, and on a collision start over with a fresh key.
    The source sets no retry bound; here the loop ends when the random stream
    is too short for another key.
   */
  function GenerateUniqueMiniKey(s: Store, g: KeyGenerator, rolls: seq<int>): (r: Result<Draw, Error>)
    requires RollsIn(rolls, |g.alphabet|)
    ensures r.Success? ==> r.value.key !in s
    ensures r.Success? ==> |r.value.key| == g.keyLength && OverAlphabet(r.value.key, g.alphabet)
    ensures r.Success? ==> |r.value.rest| <= |rolls| - g.keyLength && r.value.rest == rolls[|rolls| - |r.value.rest|..]
    ensures r.Failure? ==> r.error == (if |g.alphabet| == 0 then BoundMustBePositive else RetriesExhausted)
    decreases |rolls|
  {
    if |g.alphabet| > 0 && |rolls| < g.keyLength then Failure(RetriesExhausted)
    else
      match GenerateKey(g, rolls)
      case Failure(e) => Failure(e)
      case Success(d) =>
        if d.key in s then GenerateUniqueMiniKey(s, g, d.rest) else Success(d)
  }

  /** `buildAndSaveMiniUrl`: a new row for the key and URL, stamped on persist and saved. */
  function BuildAndSaveMiniUrl(s: Store, miniKey: string, fullUrl: string, now: Instant): (r: Result<Store, Error>)
    ensures r.Success? <==> ValidMiniUrl(OnCreate(miniKey, fullUrl, now))
    ensures r.Failure? ==> r.error == ConstraintViolation
    ensures r.Success? ==>
      && miniKey in r.value
      && r.value[miniKey] == MiniUrl(miniKey, fullUrl, now, now)
      && SameExcept(s, r.value, miniKey)
  {
    Save(s, OnCreate(miniKey, fullUrl, now))
  }

  /** The reply of a get-or-create: the row, the store after the call, the unused random stream. */
  datatype Created = Created(miniUrl: MiniUrl, store: Store, rolls: seq<int>)

  /**
    `getOrCreateMiniUrlAsync`: validate, then return an existing row with this
    exact URL, or else create and save a row under a fresh key.
   */
  ghost function GetOrCreateMiniUrl(
    isValidUrl: string -> bool, g: KeyGenerator, s: Store, rolls: seq<int>, fullUrl: string, now: Instant
  ): (r: Result<Created, Error>)
    requires RollsIn(rolls, |g.alphabet|)
    // validation comes first: whatever the store and the random stream hold
    ensures !isValidUrl(fullUrl) ==> r == Failure(InvalidUrl)
    // an existing row is returned as it is: no key drawn, nothing saved
    ensures isValidUrl(fullUrl) && HasFullUrl(s, fullUrl) ==>
      && r.Success?
      && r.value.store == s && r.value.rolls == rolls
      && r.value.miniUrl.fullUrl == fullUrl
      && r.value.miniUrl.miniKey in s && s[r.value.miniUrl.miniKey] == r.value.miniUrl
    // otherwise exactly one row is added, under a key nobody held, and no old row changes
    ensures isValidUrl(fullUrl) && !HasFullUrl(s, fullUrl) && r.Success? ==>
      var m := r.value.miniUrl;
      && m.miniKey !in s
      && m.fullUrl == fullUrl && m.createdAt == now && m.updatedAt == now
      && |m.miniKey| == g.keyLength && OverAlphabet(m.miniKey, g.alphabet)
      && ValidMiniUrl(m)
      && r.value.store.Keys == s.Keys + {m.miniKey}
      && r.value.store[m.miniKey] == m
      && SameExcept(s, r.value.store, m.miniKey)
    // the new row's key and the unused stream are those of the collision loop
    ensures isValidUrl(fullUrl) && !HasFullUrl(s, fullUrl) && r.Success? ==>
      && GenerateUniqueMiniKey(s, g, rolls).Success?
      && r.value.miniUrl.miniKey == GenerateUniqueMiniKey(s, g, rolls).value.key
      && r.value.rolls == GenerateUniqueMiniKey(s, g, rolls).value.rest
    // what is left of the random stream is a suffix of it, still fit for the alphabet
    ensures r.Success? ==> |r.value.rolls| <= |rolls| && r.value.rolls == rolls[|rolls| - |r.value.rolls|..]
    ensures r.Success? ==> RollsIn(r.value.rolls, |g.alphabet|)
    ensures r.Failure? && isValidUrl(fullUrl) ==>
      && !HasFullUrl(s, fullUrl)
      && r.error in {ConstraintViolation, BoundMustBePositive, RetriesExhausted}
  {
    if !isValidUrl(fullUrl) then Failure(InvalidUrl)
    else
      match FindByFullUrl(s, fullUrl)
      case Some(existing) => Success(Created(existing, s, rolls))
      case None =>
        match GenerateUniqueMiniKey(s, g, rolls)
        case Failure(e) => Failure(e)
        case Success(d) =>
          match BuildAndSaveMiniUrl(s, d.key, fullUrl, now)
          case Failure(e) => Failure(e)
          case Success(s') => Success(Created(s'[d.key], s', d.rest))
  }

  /** `getMiniUrlByMiniKey`: the row under the key, or NotFound. The store is only read. */
  function GetMiniUrlByMiniKey(s: Store, miniKey: string): (r: Result<MiniUrl, Error>)
    ensures r.Success? <==> miniKey in s
    ensures r.Success? ==> r.value == s[miniKey] && r.value.miniKey == miniKey
    ensures r.Failure? ==> r.error == NotFound(miniKey)
  {
    if miniKey in s then Success(s[miniKey]) else Failure(NotFound(miniKey))
  }

  /** The reply of an update: the saved row and the store after the call. */
  datatype Updated = Updated(miniUrl: MiniUrl, store: Store)

  /**
    `updateMiniUrlAsync`: validate the new URL, find the row by key, replace its
    URL and save. The flush writes only a row it finds changed: an update to
    the URL the row already has writes nothing, so neither the pre-update hook
    nor the pre-update bean validation runs, and the row comes back as stored.
   */
  function UpdateMiniUrl(isValidUrl: string -> bool, s: Store, miniKey: string, newFullUrl: string, now: Instant): (r: Result<Updated, Error>)
    // validation comes before the lookup, so an invalid URL wins over a missing key
    ensures !isValidUrl(newFullUrl) ==> r == Failure(InvalidUrl)
    ensures isValidUrl(newFullUrl) && miniKey !in s ==> r == Failure(NotFound(miniKey))
    ensures r.Success? ==>
      && miniKey in s
      && var before := s[miniKey];
      var after := r.value.miniUrl;
      && after.miniKey == miniKey
      && after.fullUrl == newFullUrl
      && after.createdAt == before.createdAt
      && after.updatedAt == (if before.fullUrl == newFullUrl then before.updatedAt else now)
      && r.value.store.Keys == s.Keys
      && r.value.store[miniKey] == after
      && SameExcept(s, r.value.store, miniKey)
    // only a changed row is validated, so only a new URL can break the constraints
    ensures r.Failure? && isValidUrl(newFullUrl) && miniKey in s ==>
      && newFullUrl != s[miniKey].fullUrl
      && r.error == ConstraintViolation
      && !ValidMiniUrl(s[miniKey].(fullUrl := newFullUrl))
  {
    if !isValidUrl(newFullUrl) then Failure(InvalidUrl)
    else if miniKey !in s then Failure(NotFound(miniKey))
    else
      var before := s[miniKey];
      var edited := before.(fullUrl := newFullUrl);
      if edited == before then Success(Updated(before, s))
      else
        var flushed := OnUpdate(edited, now);
        match Save(s, flushed)
        case Failure(e) => Failure(e)
        case Success(s') => Success(Updated(flushed, s'))
  }

  /** `deleteMiniUrlAsync`: find the row by key, then delete it, or NotFound. */
  function DeleteMiniUrl(s: Store, miniKey: string): (r: Result<Store, Error>)
    ensures r.Failure? <==> miniKey !in s
    ensures r.Failure? ==> r.error == NotFound(miniKey)
    ensures r.Success? ==> r.value.Keys == s.Keys - {miniKey} && SameExcept(s, r.value, miniKey)
  {
    if miniKey !in s then Failure(NotFound(miniKey)) else Success(s - {miniKey})
  }

  /**
    `rows` lists the store exactly: as many rows as keys, each row the one
    stored under its own key, every stored row present, no key twice.
   */
  predicate ListsExactly(s: Store, rows: seq<MiniUrl>) {
    && |rows| == |s|
    && (forall i :: 0 <= i < |rows| ==> rows[i].miniKey in s && s[rows[i].miniKey] == rows[i])
    && (forall k :: k in s ==> s[k] in rows)
    && (forall i, j :: 0 <= i < j < |rows| ==> rows[i].miniKey != rows[j].miniKey)
  }

  /** Listing one row ahead of an exact listing of the other rows lists the whole store. */
  lemma ListsExactlyCons(s: Store, k: string, tail: seq<MiniUrl>)
    requires k in s
    requires ListsExactly(s - {k}, tail)
    ensures ListsExactly(s, [s[k]] + tail)
  {
    var rest: Store := s - {k};
    var rows := [s[k]] + tail;
    assert rest.Keys == s.Keys - {k};
    assert |rest.Keys| == |s.Keys| - 1;
    assert forall i :: 1 <= i < |rows| ==> rows[i] == tail[i - 1];
    assert forall k' :: k' in rest ==> s[k'] == rest[k'] && s[k'] in tail;
  }

  /**
    `getAllMiniUrlsAsync` (`findAll`): every stored row exactly once, in an
    order the repository chooses.
   */
  ghost function GetAllMiniUrls(s: Store): (rows: seq<MiniUrl>)
    ensures ListsExactly(s, rows)
    decreases |s|
  {
    if s == map[] then []
    else
      var k :| k in s;
      var rest: Store := s - {k};
      assert rest.Keys == s.Keys - {k};
      var tail := GetAllMiniUrls(rest);
      ListsExactlyCons(s, k, tail);
      [s[k]] + tail
  }
}
