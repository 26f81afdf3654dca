/**
 * Normalization of an upstream document into a `Pokemon` record: the object
 * literal built after a successful response. A property read on a missing
 * object throws a TypeError, which the retrieval loop catches and counts as a
 * failed attempt; `None` stands for that throw. Only the two lookups under
 * `sprites.other` use optional chaining.
 */
module Normalization {
  import opened Records

  /** `slots.map(s => s.type.name)` (or `.ability.name`): throws when a slot lacks its inner object. */
  function SlotNames(slots: seq<RawSlot>): Option<seq<Option<string>>>
  {
    if forall i :: 0 <= i < |slots| ==> slots[i].ref.Some? then
      Some(seq(|slots|, i requires 0 <= i < |slots| && slots[i].ref.Some? => slots[i].ref.value.name))
    else None
  }

  /** `stats.map(s => ({ name: s.stat.name, base_stat: s.base_stat }))`. */
  function StatList(stats: seq<RawStat>): Option<seq<Stat>>
  {
    if forall i :: 0 <= i < |stats| ==> stats[i].stat.Some? then
      Some(seq(|stats|, i requires 0 <= i < |stats| && stats[i].stat.Some? =>
        Stat(stats[i].stat.value.name, stats[i].baseStat)))
    else None
  }

  /** `sprites.other?.[variant]?.front_default`: a missing object yields `undefined`, never a throw. */
  function OtherSprite(other: Option<RawOther>, official: bool): Option<string>
  {
    match other
    case None => None
    case Some(o) =>
      var sprite := if official then o.officialArtwork else o.showdown;
      if sprite.Some? then sprite.value.frontDefault else None
  }

  /**
   * Every object that normalization reads without optional chaining is there:
   * the four top-level fields, and the inner object of every type, stat and
   * ability slot.
   */
  predicate Readable(raw: RawPokemon)
  {
    && raw.types.Some? && raw.stats.Some? && raw.abilities.Some? && raw.sprites.Some?
    && (forall i :: 0 <= i < |raw.types.value| ==> raw.types.value[i].ref.Some?)
    && (forall i :: 0 <= i < |raw.stats.value| ==> raw.stats.value[i].stat.Some?)
    && (forall i :: 0 <= i < |raw.abilities.value| ==> raw.abilities.value[i].ref.Some?)
  }

  /**
   * The record built from an upstream document, or None where building it throws.
   * It is built exactly when the document is `Readable`, and keeps the upstream id
   * and name; `NormalizeReadsEveryField` says where each other field comes from.
   */
  function Normalize(raw: RawPokemon): (r: Option<Pokemon>)
    ensures r.Some? <==> Readable(raw)
    ensures r.Some? ==> r.value.id == raw.id && r.value.name == raw.name
  {
    if raw.types.None? || raw.stats.None? || raw.abilities.None? || raw.sprites.None? then None
    else
      var types := SlotNames(raw.types.value);
      var stats := StatList(raw.stats.value);
      var abilities := SlotNames(raw.abilities.value);
      if types.None? || stats.None? || abilities.None? then None
      else
        var sp := raw.sprites.value;
        Some(Pokemon(
          raw.id, raw.name, types.value, raw.height, raw.weight, stats.value, abilities.value,
          Images(OtherSprite(sp.other, true), sp.frontDefault, sp.frontShiny, OtherSprite(sp.other, false))))
  }

  /**
   * Every field of a built record is read from the matching place of the document:
   * one entry per type, stat and ability, in order, and the four sprite URLs.
   */
  lemma NormalizeReadsEveryField(raw: RawPokemon)
    requires Readable(raw)
    ensures Normalize(raw).Some?
    ensures var p := Normalize(raw).value;
      && p.id == raw.id && p.name == raw.name && p.height == raw.height && p.weight == raw.weight
      && |p.types| == |raw.types.value|
      && (forall i :: 0 <= i < |p.types| ==> p.types[i] == raw.types.value[i].ref.value.name)
      && |p.stats| == |raw.stats.value|
      && (forall i :: 0 <= i < |p.stats| ==>
            p.stats[i] == Stat(raw.stats.value[i].stat.value.name, raw.stats.value[i].baseStat))
      && |p.abilities| == |raw.abilities.value|
      && (forall i :: 0 <= i < |p.abilities| ==> p.abilities[i] == raw.abilities.value[i].ref.value.name)
      && p.images.classic == raw.sprites.value.frontDefault
      && p.images.shiny == raw.sprites.value.frontShiny
      && p.images.official == OtherSprite(raw.sprites.value.other, true)
      && p.images.animated == OtherSprite(raw.sprites.value.other, false)
  {
  }

  /** A missing `types`, `stats`, `abilities` or `sprites` field makes normalization throw. */
  lemma MissingFieldThrows(raw: RawPokemon)
    requires raw.types.None? || raw.stats.None? || raw.abilities.None? || raw.sprites.None?
    ensures Normalize(raw) == None
  {
  }

  /**
   * The optional-chained lookups are the only defensive ones: whatever `sprites.other`
   * holds, including nothing, normalization succeeds or throws exactly as before, and
   * a missing `other` only leaves the official and animated images undefined.
   */
  lemma SpriteOtherNeverThrows(raw: RawPokemon, other: Option<RawOther>)
    requires raw.sprites.Some?
    ensures var changed := raw.(sprites := Some(raw.sprites.value.(other := other)));
      && Normalize(changed).Some? == Normalize(raw).Some?
      && (other.None? && Normalize(changed).Some? ==>
            Normalize(changed).value.images.official.None? && Normalize(changed).value.images.animated.None?)
  {
  }

  /** A slot without its inner object makes the whole record fail, not just that entry. */
  lemma BrokenSlotThrows(raw: RawPokemon, i: int)
    requires raw.types.Some? && 0 <= i < |raw.types.value| && raw.types.value[i].ref.None?
    ensures Normalize(raw) == None
  {
    assert SlotNames(raw.types.value).None?;
  }
}
