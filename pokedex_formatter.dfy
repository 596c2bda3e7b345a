/**
 * `pokedex_formatter.py`: turn the lists of type records and creature records of
 * an external dataset into dicts keyed by name.
 */
module PokedexFormatter {
  import opened PyDict
  import opened PyText
  import TypeFunctions

  /** One input type record: its name and the attacking types it is weak to,
      resists and takes no damage from. */
  datatype TypeRecord = TypeRecord(typeName: string, weaknesses: seq<string>, resistances: seq<string>, noEffect: seq<string>)

  /** The base stats of an input creature record, by name. */
  datatype BaseStats = BaseStats(hp: int, attack: int, defense: int, spAttack: int, spDefense: int, speed: int)

  /** One input creature record. */
  datatype MonRecord = MonRecord(id: int, englishName: string, types: seq<string>, base: BaseStats)

  /** One output creature record. */
  datatype FormattedMon = FormattedMon(dexId: int, types: seq<string>, stats: seq<int>)

  function TypeKey(t: TypeRecord): string {
    t.typeName
  }

  /** The value stored for a type: each list lowered element by element, with
      `no_effect` renamed to `immunities`. */
  function TypeValue(t: TypeRecord): TypeFunctions.TypeEntry {
    TypeFunctions.TypeEntry(LowerAll(t.weaknesses), LowerAll(t.resistances), LowerAll(t.noEffect))
  }

  /**
   * `reformat_types(types)`: one key per distinct type name, in order of first
   * appearance; under each name the converted lists of the last record with that
   * name.
   */
  method ReformatTypes(types: seq<TypeRecord>) returns (newTypes: Dict<string, TypeFunctions.TypeEntry>)
    ensures newTypes == Collect(types, TypeKey, TypeValue)
    ensures Valid(newTypes)
    ensures Keys(newTypes) == FirstOccurrences(RowKeys(types, TypeKey))
    ensures forall k :: Get(newTypes, k) == CollectedValue(types, TypeKey, TypeValue, k)
  {
    newTypes := [];
    var i := 0;
    while i < |types|
      invariant 0 <= i <= |types|
      invariant newTypes == Collect(types[..i], TypeKey, TypeValue)
    {
      var t := types[i];
      var entry := TypeFunctions.TypeEntry(LowerAll(t.weaknesses), LowerAll(t.resistances), LowerAll(t.noEffect));
      assert entry == TypeValue(t);
      CollectSnoc(types, i, TypeKey, TypeValue);
      newTypes := Put(newTypes, t.typeName, entry);
      i := i + 1;
    }
    assert types[..i] == types;
    CollectFacts(types, TypeKey, TypeValue);
  }

  /** Each stored type entry has lists of the same lengths as the record's, lowered
      element by element and in the same order. */
  lemma TypeValueLowered(t: TypeRecord)
    ensures |TypeValue(t).weaknesses| == |t.weaknesses|
    ensures |TypeValue(t).resistances| == |t.resistances|
    ensures |TypeValue(t).immunities| == |t.noEffect|
    ensures forall i :: 0 <= i < |t.noEffect| ==> TypeValue(t).immunities[i] == Lower(t.noEffect[i])
    ensures forall i :: 0 <= i < |t.weaknesses| ==> TypeValue(t).weaknesses[i] == Lower(t.weaknesses[i])
    ensures forall i :: 0 <= i < |t.resistances| ==> TypeValue(t).resistances[i] == Lower(t.resistances[i])
  {
  }

  function MonKey(m: MonRecord): string {
    m.englishName
  }

  /** The value stored for a creature: its id, its lowered types sorted, and its
      stats in the fixed order HP, Attack, Defense, Sp. Attack, Sp. Defense, Speed. */
  function MonValue(m: MonRecord): FormattedMon {
    FormattedMon(m.id, SortStrings(LowerAll(m.types)),
                 [m.base.hp, m.base.attack, m.base.defense, m.base.spAttack, m.base.spDefense, m.base.speed])
  }

  /** A stored creature record: six stats in order, types lowered and sorted. */
  lemma MonValueShape(m: MonRecord)
    ensures MonValue(m).dexId == m.id
    ensures |MonValue(m).stats| == 6
    ensures MonValue(m).stats[0] == m.base.hp && MonValue(m).stats[5] == m.base.speed
    ensures MonValue(m).stats[1] == m.base.attack && MonValue(m).stats[2] == m.base.defense
    ensures MonValue(m).stats[3] == m.base.spAttack && MonValue(m).stats[4] == m.base.spDefense
    ensures multiset(MonValue(m).types) == multiset(LowerAll(m.types))
    ensures forall i, j :: 0 <= i <= j < |MonValue(m).types| ==> LexLe(MonValue(m).types[i], MonValue(m).types[j])
  {
    var ts := MonValue(m).types;
    forall i, j | 0 <= i <= j < |ts| ensures LexLe(ts[i], ts[j]) {
      AscendingPairwise(ts, i, j);
    }
  }

  /**
   * `reformat_pokedex(pokedex)`: records keyed by English name, in order of first
   * appearance; under each name the converted record of the last creature with that
   * name.
   */
  method ReformatPokedex(pokedex: seq<MonRecord>) returns (pokemon: Dict<string, FormattedMon>)
    ensures pokemon == Collect(pokedex, MonKey, MonValue)
    ensures Valid(pokemon)
    ensures Keys(pokemon) == FirstOccurrences(RowKeys(pokedex, MonKey))
    ensures forall k :: Get(pokemon, k) == CollectedValue(pokedex, MonKey, MonValue, k)
  {
    pokemon := [];
    var progress := 0;
    while progress < |pokedex|
      invariant 0 <= progress <= |pokedex|
      invariant pokemon == Collect(pokedex[..progress], MonKey, MonValue)
    {
      var mon := pokedex[progress];
      var stats := [mon.base.hp, mon.base.attack, mon.base.defense, mon.base.spAttack, mon.base.spDefense, mon.base.speed];
      var record := FormattedMon(mon.id, SortStrings(LowerAll(mon.types)), stats);
      assert record == MonValue(mon);
      CollectSnoc(pokedex, progress, MonKey, MonValue);
      pokemon := Put(pokemon, mon.englishName, record);
      progress := progress + 1;
    }
    assert pokedex[..progress] == pokedex;
    CollectFacts(pokedex, MonKey, MonValue);
  }
}
