# miniurl — a Dafny model of the key generator and the mapping service

miniurl is a URL shortener. A long URL gets a short random key (`miniKey`), and
the key can later be looked up, pointed at another URL, or deleted. This project
models three pieces of it and proves properties about them:

- the random key generator (`RandomKeyGenerator`): length clamping, and a key
  built one character per drawn alphabet index;
- the `MiniUrl` entity: its column constraints, the `onCreate` and `onUpdate`
  timestamp hooks, and `equals`;
- the mapping service (`MiniUrlService`): get-or-create, lookup, update, delete
  and list, as pure transitions of a store keyed by `miniKey`.

Files:

- `wrappers.dfy`: `Option` and `Result`, and the `Error` kinds.
- `random_key_generator.dfy`: module `RandomKeyGenerator`.
- `mini_url.dfy`: module `MiniUrlEntity`.
- `mini_url_service.dfy`: module `MiniUrlService`.
- `service_properties.dfy`: module `ServiceProperties`. It holds lemmas that
  relate several calls, plus a request runner for the table invariant.

How collaborators are modelled:

- **Random source.** `SecureRandom` is an oracle. The stream `rolls: seq<int>`
  holds the values that successive `nextInt(|alphabet|)` calls return, each in
  `[0, |alphabet|)`. A key is a deterministic function of the alphabet, the
  effective length and the stream. The collision loop reads its candidates from
  the same stream. The stream is finite, so it also acts as the loop's fuel.
  When too few indices are left for another key, the loop fails with
  `RetriesExhausted`. The source has no such bound.
- **URL validator.** A predicate parameter `isValidUrl`. When it returns false,
  the call fails with `InvalidUrl` ("Invalid URL format").
- **Repository.** The table is a `Store`, a `map<string, MiniUrl>` in which
  every row sits under its own `miniKey`. `findByFullUrl` returns some row whose
  URL equals the argument, or none. The choice is fixed per store and URL.
  `save` first runs the entity's bean-validation constraints, which fail with
  `ConstraintViolation`. It then writes the row under its key.
- **Clock.** `Instant.now()` becomes a `nat` argument `now`. A failed call
  returns no store, so the caller's store is unchanged.

Behaviour worth noting:

- An empty alphabet is not rejected by the constructor. It fails inside
  `generateKey`, where `nextInt(0)` throws (`BoundMustBePositive`).
- `onUpdate` is a JPA `@PreUpdate` hook. It runs only when the flush finds the
  row changed, and so does the pre-update bean validation. Updating a row to the
  URL it already holds therefore writes nothing: `updatedAt` stays, and the row
  comes back as stored (`UpdateToCurrentUrlChangesNothing`).
- The generator clamps the length only from below, while the `miniKey` column
  allows at most 32 characters. With a configured length above 32, every create
  of a new URL therefore fails at save (`GeneratedKeyFitsColumnIff`,
  `OversizedKeyLengthNeverCreates`).
- `getMiniUrlByMiniKey`, `updateMiniUrlAsync` and `deleteMiniUrlAsync` call
  `findByMiniKey`. `repositories/MiniUrlRepository.java` does not declare it.
  The model reads it as a lookup by primary key.

The generator is an immutable value. No operation returns a changed generator,
so its alphabet and length stay as the constructor set them.

## Model

| member | source | states |
|---|---|---|
| `RandomKeyGenerator.ValidateKeyLength` | src/main/java/com/desireevaldes/miniurl/utils/RandomKeyGenerator.java:23-28 | the effective length is always at least 7; it equals the configured length when that is at least 7, and is exactly 7 otherwise (clamped, never rejected) |
| `RandomKeyGenerator.ValidateKeyLengthIsLeastUpperBound` | src/main/java/com/desireevaldes/miniurl/utils/RandomKeyGenerator.java:13-28 | the clamp is the least length that is both at least 7 and at least the configured one; clamping again changes nothing |
| `RandomKeyGenerator.New` | src/main/java/com/desireevaldes/miniurl/utils/RandomKeyGenerator.java:15-21 | the constructor keeps the alphabet as given, even an empty one; the stored length never falls below the configured one; it differs from it only when raised to 7 |
| `RandomKeyGenerator.Pick` | src/main/java/com/desireevaldes/miniurl/utils/RandomKeyGenerator.java:32-34 | character k of the result is `alphabet[i_k]`, where `i_k` is the k-th drawn index; one character per index |
| `RandomKeyGenerator.GenerateKey` | src/main/java/com/desireevaldes/miniurl/utils/RandomKeyGenerator.java:30-37 | fails exactly when the alphabet is empty (`nextInt(0)`); otherwise the key has exactly the effective length, character k is `alphabet[i_k]`, every character is in the alphabet, and exactly `keyLength` indices are consumed |
| `RandomKeyGenerator.BuildKey` | src/main/java/com/desireevaldes/miniurl/utils/RandomKeyGenerator.java:30-37 | the character-appending loop computes the same key and leftover stream as `GenerateKey` |
| `RandomKeyGenerator.Candidates` | src/main/java/com/desireevaldes/miniurl/services/MiniUrlService.java:67-85 | successive `generateKey` results from one stream; each has the effective length and uses only alphabet characters; there is one when the stream holds enough indices for a key |
| `RandomKeyGenerator.ConfiguredSixGivesSevenCharacters` | src/test/java/com/desireevaldes/miniurl/utils/RandomKeyGeneratorTest.java:13-17 | configured length 6 with the default 62-character alphabet gives keys of exactly 7 characters, all from that alphabet |
| `RandomKeyGenerator.ConfiguredTenGivesTenCharacters` | src/test/java/com/desireevaldes/miniurl/utils/RandomKeyGeneratorTest.java:20-24 | configured length 10 gives keys of exactly 10 characters |
| `RandomKeyGenerator.CustomAlphabetKeysMatchClass` | src/test/java/com/desireevaldes/miniurl/utils/RandomKeyGeneratorTest.java:27-31 | with alphabet "0123456789ABCDEFG" and length 8, every key matches `[0-9A-G]{8}` |
| `MiniUrlEntity.ValidMiniUrlBounds` | src/main/java/com/desireevaldes/miniurl/models/MiniUrl.java:17-25 | a valid row has a `miniKey` of 7 to 32 characters and a non-empty `fullUrl` of at most 2048 characters |
| `MiniUrlEntity.OnCreate` | src/main/java/com/desireevaldes/miniurl/models/MiniUrl.java:33-37 | creation stamps `createdAt` and `updatedAt` with the same instant and keeps key and URL |
| `MiniUrlEntity.OnUpdate` | src/main/java/com/desireevaldes/miniurl/models/MiniUrl.java:27-43 | the update hook changes only `updatedAt`; `createdAt`, key and URL stay; with a clock that has not gone back, `createdAt <= updatedAt` still holds |
| `MiniUrlEntity.UpdateAll` | src/main/java/com/desireevaldes/miniurl/models/MiniUrl.java:39-43 | after any series of pre-update hook firings, key, URL and `createdAt` are those of the original row, and `updatedAt` is the last firing's instant |
| `MiniUrlEntity.UpdatesKeepStamped` | src/main/java/com/desireevaldes/miniurl/models/MiniUrl.java:33-43 | with a non-decreasing clock, `createdAt <= updatedAt <= clock` survives any sequence of pre-update hook firings |
| `MiniUrlEntity.CreatedThenUpdatedIsStamped` | src/main/java/com/desireevaldes/miniurl/models/MiniUrl.java:33-43 | a created row keeps its creation instant and `createdAt <= updatedAt` through any later pre-update hook firings from a non-decreasing clock |
| `MiniUrlEntity.Equals` | src/main/java/com/desireevaldes/miniurl/models/MiniUrl.java:77-82 | two rows are equal exactly when all four fields are equal |
| `MiniUrlService.FindByFullUrl` | src/main/java/com/desireevaldes/miniurl/services/MiniUrlService.java:58-60 | returns none exactly when no stored row has this exact URL; otherwise returns a stored row, under its own key, whose URL is this one |
| `MiniUrlService.Save` | src/main/java/com/desireevaldes/miniurl/models/MiniUrl.java:17-25 | a save succeeds exactly when the row meets the column constraints; it then holds the row under its key, and no other row changes |
| `MiniUrlService.GenerateUniqueMiniKey` | src/main/java/com/desireevaldes/miniurl/services/MiniUrlService.java:67-85 | a returned key is absent from the store at probe time, has the effective length and uses only alphabet characters; the leftover stream is a suffix of the input; failure means an empty alphabet or a stream too short for a fresh key |
| `MiniUrlService.BuildAndSaveMiniUrl` | src/main/java/com/desireevaldes/miniurl/services/MiniUrlService.java:87-93 | the new row has the given key and URL with equal timestamps; it is saved only if it meets the constraints; no other row changes |
| `MiniUrlService.GetOrCreateMiniUrl` | src/main/java/com/desireevaldes/miniurl/services/MiniUrlService.java:31-52 | a rejected URL fails with `InvalidUrl`, whatever the store and stream hold. If a row with this exact URL exists, it is returned with store and stream unchanged. Otherwise exactly one valid row is added, under the key the collision loop returns, which no row held, with this URL and `createdAt == updatedAt == now`; no old row changes, and the unused stream is the loop's leftover, still fit for the alphabet |
| `MiniUrlService.GetMiniUrlByMiniKey` | src/main/java/com/desireevaldes/miniurl/services/MiniUrlService.java:95-108 | succeeds exactly for a stored key and returns the row stored under it, whose `miniKey` is that key; an absent key gives `NotFound(key)`; no store is returned, so none changes |
| `MiniUrlService.UpdateMiniUrl` | src/main/java/com/desireevaldes/miniurl/services/MiniUrlService.java:110-135 | a rejected URL fails with `InvalidUrl` even for an absent key. An absent key gives `NotFound`. On success only that row changes: the new URL, the same key and `createdAt`, and `updatedAt` refreshed when the URL changed. A failure on a present key is a constraint violation of a row whose URL was changed; an unchanged URL is never validated |
| `MiniUrlService.DeleteMiniUrl` | src/main/java/com/desireevaldes/miniurl/services/MiniUrlService.java:137-152 | fails with `NotFound` exactly for an absent key; otherwise removes exactly that key, and every other row stays |
| `MiniUrlService.GetAllMiniUrls` | src/main/java/com/desireevaldes/miniurl/services/MiniUrlService.java:154-158 | lists every stored row exactly once (as many rows as keys, each row stored under its key, no key twice), in an order the repository chooses |
| `ServiceProperties.GetOrCreateIsIdempotent` | src/main/java/com/desireevaldes/miniurl/services/MiniUrlService.java:36-43 | a second get-or-create for the same URL returns the same row and leaves store and stream unchanged |
| `ServiceProperties.UniqueMiniKeyIsFirstFreshCandidate` | src/main/java/com/desireevaldes/miniurl/services/MiniUrlService.java:67-85 | the collision loop succeeds exactly when some candidate is free; it returns the first free candidate, and every earlier candidate was already taken |
| `ServiceProperties.CreatedKeyIsFirstFreshCandidate` | src/main/java/com/desireevaldes/miniurl/services/MiniUrlService.java:62-85 | a get-or-create that adds a row files it under the first candidate key the store did not hold; one that fails with `RetriesExhausted` found every candidate taken |
| `ServiceProperties.CreateSucceedsWithFreshCandidate` | src/main/java/com/desireevaldes/miniurl/services/MiniUrlService.java:62-93 | when the URL is new and passes the validator and constraints, the key length is at most 32, and the stream yields a free candidate, get-or-create succeeds |
| `ServiceProperties.GeneratedKeyFitsColumnIff` | src/main/java/com/desireevaldes/miniurl/utils/RandomKeyGenerator.java:23-28 | a generated key fits the 7-to-32 `miniKey` column exactly when the configured length is at most 32 |
| `ServiceProperties.OversizedKeyLengthNeverCreates` | src/main/java/com/desireevaldes/miniurl/models/MiniUrl.java:17-20 | with a key length above 32, get-or-create of a URL not yet stored always fails |
| `ServiceProperties.DeleteThenGetIsNotFound` | src/main/java/com/desireevaldes/miniurl/services/MiniUrlService.java:137-152 | after a delete, looking up the key gives `NotFound`, and every other key reads as before |
| `ServiceProperties.UpdateThenGet` | src/main/java/com/desireevaldes/miniurl/services/MiniUrlService.java:110-135 | after an update, a lookup gives the new URL under the same key and creation instant, and `updatedAt` has not moved back |
| `ServiceProperties.UpdateToCurrentUrlChangesNothing` | src/main/java/com/desireevaldes/miniurl/services/MiniUrlService.java:123-127 | updating any stored row, valid or not, to the URL it already holds returns that row and leaves the store exactly as it was |
| `ServiceProperties.GetOrCreatePreservesHealthy` | src/main/java/com/desireevaldes/miniurl/services/MiniUrlService.java:31-52 | get-or-create keeps the table invariant: every row valid and `createdAt <= updatedAt <= clock` |
| `ServiceProperties.UpdatePreservesHealthy` | src/main/java/com/desireevaldes/miniurl/services/MiniUrlService.java:110-135 | update keeps the same table invariant under a later clock reading |
| `ServiceProperties.RunPreservesHealthy` | src/main/java/com/desireevaldes/miniurl/models/MiniUrl.java:33-43 | for any sequence of shorten, edit and delete requests served at non-decreasing instants, every row stays valid and keeps `createdAt <= updatedAt` |

## Left out

- Asynchrony and concurrency: `CompletableFuture`, `@Async` and `supplyAsync`. The model is sequential. The race between probe and save, and two concurrent creates of one URL, are not modelled.
- Persistence: JPA, `@Transactional`, durability, and the repository as code. The table is an abstract map.
- `repositories/MiniUrlRepository.java` `existsByFullUrl`: declared there, but the service never calls it.
- FindByFullUrl: when several rows share one URL, Spring Data's single-result query would throw instead of picking one. An update can create such duplicates. The model picks one row.
- `utils/CustomUrlValidator.java`: it wraps Apache Commons `UrlValidator`, whose rules are not available. It is the predicate parameter `isValidUrl`.
- The HTTP layer: `api/v1/MiniUrlController.java`, the request and response DTOs, `ApiExceptionHandler.java`, and the mapping of errors to 404 and 400.
- The distribution of `SecureRandom` and `testKeyIsUnique`: whether two draws differ is a probability, not a property. Randomness is an oracle.
- GetOrCreateMiniUrl: a failed call returns no random stream, so indices consumed before the failure are not tracked. Later calls can reuse them in the model.
- GenerateUniqueMiniKey: the source loop has no bound. The model loop ends when the finite stream runs out, with `RetriesExhausted`. That error stands for a loop that has not yet found a fresh key.
- String lengths: Java counts UTF-16 code units; the model counts characters. They differ only outside the Basic Multilingual Plane.
- `StringBuilder` capacity and out-of-memory for huge configured lengths.
- `hashCode`, `toString`, getters and setters of `MiniUrl`; logging; `Instant.now()` (a `nat` argument instead); `MiniurlApplication.java`.
