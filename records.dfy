/** The records that flow between the upstream catalogue, the cache and the game. */
module Records {

  /** A JavaScript value that may be `null` or `undefined` (None) or present (Some). */
  datatype Option<+T> = None | Some(value: T)

  /** One entry of the normalized `stats` list: `{ name, base_stat }`. */
  datatype Stat = Stat(name: Option<string>, baseStat: Option<int>)

  /** The four sprite URLs of a normalized record; each may be missing. */
  datatype Images = Images(
    official: Option<string>,
    classic: Option<string>,
    shiny: Option<string>,
    animated: Option<string>)

  /** A normalized Pokémon record, as stored in the cache and shown by the game. */
  datatype Pokemon = Pokemon(
    id: int,
    name: Option<string>,
    types: seq<Option<string>>,
    height: Option<int>,
    weight: Option<int>,
    stats: seq<Stat>,
    abilities: seq<Option<string>>,
    images: Images)

  // ---------------------------------------------------------------------------
  // The raw upstream document, as far as normalization reads it.  A field that
  // is `Option<...>` may be absent; reading a property of an absent object throws
  // a TypeError in JavaScript unless optional chaining (`?.`) is used.
  // ---------------------------------------------------------------------------

  /** `{ name }`, the innermost object of `types[i].type`, `abilities[i].ability`, `stats[i].stat`. */
  datatype NamedRef = NamedRef(name: Option<string>)

  /** An element of `types` (`{ type: {...} }`) or of `abilities` (`{ ability: {...} }`). */
  datatype RawSlot = RawSlot(ref: Option<NamedRef>)

  /** An element of `stats`: `{ stat: {...}, base_stat }`. */
  datatype RawStat = RawStat(stat: Option<NamedRef>, baseStat: Option<int>)

  /** `{ front_default }` under `sprites.other['official-artwork']` or `sprites.other.showdown`. */
  datatype Sprite = Sprite(frontDefault: Option<string>)

  datatype RawOther = RawOther(officialArtwork: Option<Sprite>, showdown: Option<Sprite>)

  datatype RawSprites = RawSprites(
    frontDefault: Option<string>,
    frontShiny: Option<string>,
    other: Option<RawOther>)

  /** The parsed body of a successful upstream response. */
  datatype RawPokemon = RawPokemon(
    id: int,
    name: Option<string>,
    types: Option<seq<RawSlot>>,
    height: Option<int>,
    weight: Option<int>,
    stats: Option<seq<RawStat>>,
    abilities: Option<seq<RawSlot>>,
    sprites: Option<RawSprites>)

  // ---------------------------------------------------------------------------
  // Identity of records: the `id` field is the key of uniqueness.
  // ---------------------------------------------------------------------------

  /** The ids of a list of records (`new Set(list.map(p => p.id))`). */
  function IdSet(s: seq<Pokemon>): set<int>
  {
    set i | 0 <= i < |s| :: s[i].id
  }

  /** No two records of the list share an id. */
  predicate DistinctIds(s: seq<Pokemon>)
  {
    forall i, j :: 0 <= i < j < |s| ==> s[i].id != s[j].id
  }

  lemma IdSetAppend(s: seq<Pokemon>, p: Pokemon)
    ensures IdSet(s + [p]) == IdSet(s) + {p.id}
  {
    var t := s + [p];
    assert t[|s|].id == p.id;
    forall x | x in IdSet(s) ensures x in IdSet(t) {
      var i :| 0 <= i < |s| && s[i].id == x;
      assert t[i].id == x;
    }
  }

  lemma DistinctAppend(s: seq<Pokemon>, p: Pokemon)
    requires DistinctIds(s) && p.id !in IdSet(s)
    ensures DistinctIds(s + [p])
  {
    var t := s + [p];
    forall i, j | 0 <= i < j < |t| ensures t[i].id != t[j].id {
      if j == |s| {
        assert t[i] == s[i];
        assert s[i].id in IdSet(s);
      }
    }
  }

  // Extensionality for integer-keyed sets and maps, spelled out one direction at a time.

  lemma IntSetsEqual(s: set<int>, t: set<int>)
    requires forall x :: x in s <==> x in t
    ensures s == t
  {
    assert forall x :: x in s ==> x in t;
    assert s <= t;
    assert forall x :: x in t ==> x in s;
    assert t <= s;
  }

  lemma IntMapsEqual<V>(a: map<int, V>, b: map<int, V>)
    requires forall k :: k in a <==> k in b
    requires forall k :: k in a ==> a[k] == b[k]
    ensures a == b
  {
    assert forall k :: k in a ==> k in b;
    assert a.Keys <= b.Keys;
    assert forall k :: k in b ==> k in a;
    assert b.Keys <= a.Keys;
    assert forall k :: k in a ==> a[k] == b[k];
  }

  function Min(a: int, b: int): int
  {
    if a <= b then a else b
  }
}
