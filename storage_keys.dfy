/**
 * The durable-tier key of a cached record: the template string `pokemon_${id}`,
 * that is the prefix followed by the decimal form of the id.
 */
module StorageKeys {

  const PREFIX: string := "pokemon_"

  function Digit(d: int): char
    requires 0 <= d < 10
  {
    ('0' as int + d) as char
  }

  predicate AllDigits(s: string)
  {
    forall i :: 0 <= i < |s| ==> '0' <= s[i] <= '9'
  }

  /** The decimal form of a non-negative integer, without leading zeros. */
  function NatToString(n: nat): (s: string)
    ensures |s| > 0 && AllDigits(s)
  {
    if n < 10 then [Digit(n)] else NatToString(n / 10) + [Digit(n % 10)]
  }

  /** JavaScript's string conversion of an integer: a minus sign, then the digits. */
  function IntToString(n: int): string
  {
    if n < 0 then "-" + NatToString(-n) else NatToString(n)
  }

  /** The key `pokemon_<id>` under which `set` persists a record. */
  function KeyFor(id: int): string
  {
    PREFIX + IntToString(id)
  }

  /** `key.startsWith('pokemon_')`: the keys `cleanExpired`, `clear` and `getStats` touch. */
  predicate IsPokemonKey(k: string)
  {
    |k| >= |PREFIX| && k[..|PREFIX|] == PREFIX
  }

  // Reading a decimal form back: only needed to show that `KeyFor` is injective.

  function ParseDigits(s: string): int
  {
    if |s| == 0 then 0 else ParseDigits(s[..|s| - 1]) * 10 + (s[|s| - 1] as int - '0' as int)
  }

  function ParseInt(s: string): int
  {
    if |s| > 0 && s[0] == '-' then -ParseDigits(s[1..]) else ParseDigits(s)
  }

  lemma {:induction false} NatRoundTrip(n: nat)
    ensures ParseDigits(NatToString(n)) == n
  {
    var s := NatToString(n);
    if n >= 10 {
      var front := NatToString(n / 10);
      assert s[..|s| - 1] == front;
      NatRoundTrip(n / 10);
    }
  }

  /** The id can be read back from the key that `set` writes for it. */
  lemma KeyRoundTrip(id: int)
    ensures IsPokemonKey(KeyFor(id))
    ensures ParseInt(KeyFor(id)[|PREFIX|..]) == id
  {
    var k := KeyFor(id);
    assert k[..|PREFIX|] == PREFIX;
    assert k[|PREFIX|..] == IntToString(id);
    if id < 0 {
      var s := IntToString(id);
      assert s[1..] == NatToString(-id);
      NatRoundTrip(-id);
    } else {
      var s := NatToString(id);
      assert '0' <= s[0] <= '9';
      NatRoundTrip(id);
    }
  }

  /** Distinct ids are persisted under distinct keys, so no two records share a durable slot. */
  lemma KeyForInjective(a: int, b: int)
    ensures KeyFor(a) == KeyFor(b) ==> a == b
  {
    KeyRoundTrip(a);
    KeyRoundTrip(b);
  }
}
