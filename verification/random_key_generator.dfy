/**
  The random key generator: a configured alphabet and key length, and keys
  built by drawing one alphabet index per character.

  The secure random source is an oracle: a stream `rolls` of the values that
  successive `nextInt(|alphabet|)` calls return, each in `[0, |alphabet|)`.
  A key is then a deterministic function of the alphabet, the effective
  length and the stream.
 */
module RandomKeyGenerator {
  import opened Wrappers
  import opened Errors

  /** The floor a configured key length is raised to. */
  const MinKeyLength: nat := 7

  const DefaultAlphabet: string := "0123456789ABCDEFGHIJKLMNOPQRSTUVWXYZabcdefghijklmnopqrstuvwxyz"

  /** Java's `int`. */
  type Int32 = x: int | -0x8000_0000 <= x < 0x8000_0000

  /** An effective key length: at least `MinKeyLength`, and still a Java `int`. */
  type KeyLength = n: int | 7 <= n < 0x8000_0000 witness 7

  /** The generator's configuration, fixed once it is constructed. */
  datatype KeyGenerator = KeyGenerator(alphabet: string, keyLength: KeyLength)

  /** The stream of drawn indices fits an alphabet of `bound` characters. */
  predicate RollsIn(rolls: seq<int>, bound: nat) {
    forall i :: 0 <= i < |rolls| ==> 0 <= rolls[i] < bound
  }

  /** The configured length, clamped from below (never rejected). */
  function ValidateKeyLength(configured: Int32): (n: Int32)
    ensures n >= MinKeyLength
    ensures configured >= MinKeyLength ==> n == configured
    ensures configured < MinKeyLength ==> n == MinKeyLength
  {
    if configured < MinKeyLength then MinKeyLength else configured
  }

  /** The clamp is the least admissible length covering the configured one, and clamping twice changes nothing. */
  lemma ValidateKeyLengthIsLeastUpperBound(configured: Int32, m: int)
    requires m >= MinKeyLength && m >= configured
    ensures ValidateKeyLength(configured) <= m
    ensures ValidateKeyLength(ValidateKeyLength(configured)) == ValidateKeyLength(configured)
  {
  }

  /** The constructor: keeps the alphabet as given (even an empty one) and clamps the length. */
  function New(alphabet: string, configured: Int32): (g: KeyGenerator)
    ensures g.alphabet == alphabet
    ensures g.keyLength >= configured
    ensures g.keyLength == configured <==> configured >= MinKeyLength
    ensures g.keyLength != configured ==> g.keyLength == MinKeyLength
  {
    KeyGenerator(alphabet, ValidateKeyLength(configured))
  }

  /** The characters a stream of indices selects from the alphabet, one per index. */
  function Pick(alphabet: string, rolls: seq<int>): (key: string)
    requires RollsIn(rolls, |alphabet|)
    ensures |key| == |rolls|
    ensures forall k :: 0 <= k < |rolls| ==> key[k] == alphabet[rolls[k]]
  {
    if rolls == [] then [] else [alphabet[rolls[0]]] + Pick(alphabet, rolls[1..])
  }

  /** A generated key, and the part of the random stream left for later draws. */
  datatype Draw = Draw(key: string, rest: seq<int>)

  /** Every character of `key` is a character of `alphabet`. */
  predicate OverAlphabet(key: string, alphabet: string) {
    forall k :: 0 <= k < |key| ==> key[k] in alphabet
  }

  /**
    `generateKey`: draws `keyLength` indices and appends the selected characters.
    With an empty alphabet the first draw, `nextInt(0)`, throws.
   */
  function GenerateKey(g: KeyGenerator, rolls: seq<int>): (r: Result<Draw, Error>)
    requires RollsIn(rolls, |g.alphabet|)
    requires |g.alphabet| > 0 ==> |rolls| >= g.keyLength
    ensures r.Failure? <==> |g.alphabet| == 0
    ensures r.Failure? ==> r.error == BoundMustBePositive
    ensures r.Success? ==> |r.value.key| == g.keyLength
    ensures r.Success? ==> forall k :: 0 <= k < g.keyLength ==> r.value.key[k] == g.alphabet[rolls[k]]
    ensures r.Success? ==> OverAlphabet(r.value.key, g.alphabet)
    ensures r.Success? ==> rolls == rolls[..g.keyLength] + r.value.rest
  {
    if |g.alphabet| == 0 then Failure(BoundMustBePositive)
    else Success(Draw(Pick(g.alphabet, rolls[..g.keyLength]), rolls[g.keyLength..]))
  }

  /** The `StringBuilder` loop of `generateKey`, one appended character per drawn index. */
  method BuildKey(g: KeyGenerator, rolls: seq<int>) returns (r: Result<Draw, Error>)
    requires RollsIn(rolls, |g.alphabet|)
    requires |g.alphabet| > 0 ==> |rolls| >= g.keyLength
    ensures r == GenerateKey(g, rolls)
  {
    if |g.alphabet| == 0 {
      // the first iteration's nextInt(0) throws
      return Failure(BoundMustBePositive);
    }
    var newKey := "";
    var i := 0;
    while i < g.keyLength
      invariant 0 <= i <= g.keyLength
      invariant |newKey| == i
      invariant forall k :: 0 <= k < i ==> newKey[k] == g.alphabet[rolls[k]]
    {
      newKey := newKey + [g.alphabet[rolls[i]]];
      i := i + 1;
    }
    assert newKey == Pick(g.alphabet, rolls[..g.keyLength]);
    return Success(Draw(newKey, rolls[g.keyLength..]));
  }

  /**
    The keys successive `generateKey` calls produce from one random stream,
    in order, as long as the stream holds enough indices for another key.
   */
  function Candidates(g: KeyGenerator, rolls: seq<int>): (cs: seq<string>)
    requires RollsIn(rolls, |g.alphabet|)
    ensures |rolls| >= g.keyLength <==> |cs| > 0
    ensures forall i :: 0 <= i < |cs| ==> |cs[i]| == g.keyLength && OverAlphabet(cs[i], g.alphabet)
    decreases |rolls|
  {
    if |rolls| < g.keyLength then []
    else [Pick(g.alphabet, rolls[..g.keyLength])] + Candidates(g, rolls[g.keyLength..])
  }

  /** The alphabet of the custom-alphabet unit test. */
  const CustomTestAlphabet: string := "0123456789ABCDEFG"

  /** Configured length 6 with the default alphabet gives 7-character keys over that alphabet. */
  lemma ConfiguredSixGivesSevenCharacters(rolls: seq<int>)
    requires RollsIn(rolls, |DefaultAlphabet|) && |rolls| >= 7
    ensures var r := GenerateKey(New(DefaultAlphabet, 6), rolls);
      r.Success? && |r.value.key| == 7 && OverAlphabet(r.value.key, DefaultAlphabet)
  {
  }

  /** Configured length 10 gives 10-character keys. */
  lemma ConfiguredTenGivesTenCharacters(rolls: seq<int>)
    requires RollsIn(rolls, |DefaultAlphabet|) && |rolls| >= 10
    ensures var r := GenerateKey(New(DefaultAlphabet, 10), rolls);
      r.Success? && |r.value.key| == 10
  {
  }

  /** With alphabet "0123456789ABCDEFG" and length 8, every key matches `[0-9A-G]{8}`. */
  lemma CustomAlphabetKeysMatchClass(rolls: seq<int>)
    requires RollsIn(rolls, |CustomTestAlphabet|) && |rolls| >= 8
    ensures var r := GenerateKey(New(CustomTestAlphabet, 8), rolls);
      && r.Success?
      && |r.value.key| == 8
      && forall k :: 0 <= k < 8 ==> '0' <= r.value.key[k] <= '9' || 'A' <= r.value.key[k] <= 'G'
  {
    var key := GenerateKey(New(CustomTestAlphabet, 8), rolls).value.key;
    forall k | 0 <= k < 8
      ensures '0' <= key[k] <= '9' || 'A' <= key[k] <= 'G'
    {
      assert key[k] == CustomTestAlphabet[rolls[k]];
    }
  }
}
