/** The creature records of the scraped dataset (`pokedex.json`). */
module Pokedex {
  import opened PyDict

  /**
   * One record: its national number, its type names (lower case, sorted), its six
   * base stats in the order HP, Attack, Defense, Sp. Atk, Sp. Def, Speed, and
   * whether it is an alternate form of the previous row's creature.
   */
  datatype Creature = Creature(dexId: int, types: seq<string>, stats: seq<int>, altForm: bool)

  /** The dataset: creature records keyed by lower-case name. */
  type Dex = Dict<string, Creature>
}
