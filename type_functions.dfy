/**
 * Type effectiveness. A defending type has lists of attacking types it is weak to,
 * resists and is immune to; `get_wri` turns them into an 18-slot vector of damage
 * multipliers, `build_wri` combines the vectors of a dual type, and `type_synergy`
 * scores how two creatures' vectors cover each other.
 */
module TypeFunctions {
  import opened Outcome
  import opened PyDict

  /** One entry of the type data: attacking type names, lower case. */
  datatype TypeEntry = TypeEntry(weaknesses: seq<string>, resistances: seq<string>, immunities: seq<string>)

  /** The attacking types in slot order. */
  const TypeNames: seq<string> :=
    ["bug", "dark", "dragon", "electric", "fairy", "fighting", "fire", "flying", "ghost",
     "grass", "ground", "ice", "normal", "poison", "psychic", "rock", "steel", "water"]

  /** The slot of each attacking type. */
  const TypeIndices: map<string, nat> :=
    map["bug" := 0, "dark" := 1, "dragon" := 2, "electric" := 3,
        "fairy" := 4, "fighting" := 5, "fire" := 6, "flying" := 7,
        "ghost" := 8, "grass" := 9, "ground" := 10, "ice" := 11,
        "normal" := 12, "poison" := 13, "psychic" := 14, "rock" := 15,
        "steel" := 16, "water" := 17]

  /** The slot table is a one-to-one correspondence between the 18 names and 0..17. */
  lemma TypeIndicesOneToOne()
    ensures |TypeNames| == 18
    ensures forall k :: 0 <= k < 18 ==> TypeNames[k] in TypeIndices && TypeIndices[TypeNames[k]] == k
    ensures forall n :: n in TypeIndices ==> TypeIndices[n] < 18 && TypeNames[TypeIndices[n]] == n
  {
  }

  /** Some known name in `names` selects slot `k`. */
  predicate Names(names: seq<string>, k: nat) {
    exists i :: 0 <= i < |names| && names[i] in TypeIndices && TypeIndices[names[i]] == k
  }

  /**
   * The multiplier in slot `k`: immunity takes precedence over resistance, and
   * resistance over weakness; a slot no list names is neutral.
   */
  function Multiplier(e: TypeEntry, k: nat): real {
    if Names(e.immunities, k) then 0.0
    else if Names(e.resistances, k) then 0.5
    else if Names(e.weaknesses, k) then 2.0
    else 1.0
  }

  function Wri(e: TypeEntry): (v: seq<real>)
    ensures |v| == 18
    ensures forall k :: 0 <= k < 18 ==> v[k] == Multiplier(e, k)
  {
    seq(18, k requires 0 <= k < 18 => Multiplier(e, k))
  }

  /** Every multiplier of a single type is 0, 1/2, 1 or 2. */
  lemma WriRange(e: TypeEntry, k: nat)
    requires k < 18
    ensures Wri(e)[k] in {0.0, 0.5, 1.0, 2.0}
  {
  }

  /** The position of the first name that has no slot. */
  function UnknownAt(names: seq<string>, slots: map<string, nat>): (r: Option<nat>)
    ensures r.Some? ==> r.value < |names| && names[r.value] !in slots
    ensures r.Some? ==> forall j :: 0 <= j < r.value ==> names[j] in slots
    ensures r.None? <==> forall j :: 0 <= j < |names| ==> names[j] in slots
  {
    if names == [] then None
    else if names[0] !in slots then Some(0)
    else match UnknownAt(names[1..], slots)
      case Some(i) => Some(i + 1)
      case None => None
  }

  /** What `get_wri(type)` returns or raises, given the type data. */
  function WriOf(data: Dict<string, TypeEntry>, t: string): (r: Result<seq<real>>)
    ensures r.Success? ==> |r.value| == 18
  {
    match Get(data, t)
    case None => Failure(KeyError(t))
    case Some(e) =>
      var all := e.weaknesses + e.resistances + e.immunities;
      match UnknownAt(all, TypeIndices)
      case Some(i) => Failure(KeyError(all[i]))
      case None => Success(Wri(e))
  }

  lemma NamesSnoc(names: seq<string>, i: nat)
    requires i < |names| && names[i] in TypeIndices
    ensures forall k :: Names(names[..i + 1], k) <==> Names(names[..i], k) || TypeIndices[names[i]] == k
  {
    forall k ensures Names(names[..i + 1], k) <==> Names(names[..i], k) || TypeIndices[names[i]] == k {
      if Names(names[..i + 1], k) {
        var j :| 0 <= j < i + 1 && names[..i + 1][j] in TypeIndices && TypeIndices[names[..i + 1][j]] == k;
        if j < i {
          assert names[..i][j] == names[j];
        }
      }
      if Names(names[..i], k) {
        var j :| 0 <= j < i && names[..i][j] in TypeIndices && TypeIndices[names[..i][j]] == k;
        assert names[..i + 1][j] == names[j];
      }
      if TypeIndices[names[i]] == k {
        assert names[..i + 1][i] == names[i];
      }
    }
  }

  lemma SlotBound(name: string)
    requires name in TypeIndices
    ensures TypeIndices[name] < 18
  {
  }

  /**
   * One pass of `get_wri`: write `x` into the slot of every name of `names`, in
   * order. A name without a slot stops the pass (Python raises KeyError there):
   * its position is returned, and the slots of the names before it are written.
   */
  method Overwrite(full: array<real>, names: seq<string>, x: real) returns (bad: Option<nat>)
    requires full.Length == 18
    modifies full
    ensures bad.Some? ==> bad == UnknownAt(names, TypeIndices)
    ensures bad.None? ==> UnknownAt(names, TypeIndices).None?
    ensures bad.None? ==> forall k :: 0 <= k < 18 ==> full[k] == if Names(names, k) then x else old(full[k])
  {
    var i := 0;
    while i < |names|
      invariant 0 <= i <= |names|
      invariant forall j :: 0 <= j < i ==> names[j] in TypeIndices
      invariant forall k :: 0 <= k < 18 ==> full[k] == if Names(names[..i], k) then x else old(full[k])
    {
      var name := names[i];
      if name !in TypeIndices {
        return Some(i);
      }
      SlotBound(name);
      full[TypeIndices[name]] := x;
      NamesSnoc(names, i);
      i := i + 1;
    }
    assert names[..i] == names;
    return None;
  }

  /** The first unknown name of a concatenation: in the first part if it has one. */
  lemma {:induction false} UnknownAtAppend(a: seq<string>, b: seq<string>, slots: map<string, nat>)
    ensures UnknownAt(a + b, slots) ==
      match UnknownAt(a, slots)
      case Some(i) => Some(i)
      case None => match UnknownAt(b, slots) case Some(i) => Some(|a| + i) case None => None
  {
    if a == [] {
      assert a + b == b;
    } else {
      assert (a + b)[0] == a[0];
      assert (a + b)[1..] == a[1..] + b;
      UnknownAtAppend(a[1..], b, slots);
    }
  }

  /** The first unknown name of three lists put together, and the list it comes from. */
  lemma FirstUnknownOfThree(a: seq<string>, b: seq<string>, c: seq<string>, slots: map<string, nat>)
    ensures UnknownAt(a, slots).Some? ==>
      UnknownAt(a + b + c, slots).Some? && (a + b + c)[UnknownAt(a + b + c, slots).value] == a[UnknownAt(a, slots).value]
    ensures UnknownAt(a, slots).None? && UnknownAt(b, slots).Some? ==>
      UnknownAt(a + b + c, slots).Some? && (a + b + c)[UnknownAt(a + b + c, slots).value] == b[UnknownAt(b, slots).value]
    ensures UnknownAt(a, slots).None? && UnknownAt(b, slots).None? && UnknownAt(c, slots).Some? ==>
      UnknownAt(a + b + c, slots).Some? && (a + b + c)[UnknownAt(a + b + c, slots).value] == c[UnknownAt(c, slots).value]
    ensures UnknownAt(a, slots).None? && UnknownAt(b, slots).None? && UnknownAt(c, slots).None? ==>
      UnknownAt(a + b + c, slots).None?
  {
    UnknownAtAppend(a, b, slots);
    UnknownAtAppend(a + b, c, slots);
    if UnknownAt(a, slots).Some? {
      var i := UnknownAt(a, slots).value;
      assert (a + b + c)[i] == (a + b)[i] == a[i];
    } else if UnknownAt(b, slots).Some? {
      var i := UnknownAt(b, slots).value;
      assert (a + b + c)[|a| + i] == (a + b)[|a| + i] == b[i];
    } else if UnknownAt(c, slots).Some? {
      var i := UnknownAt(c, slots).value;
      assert (a + b + c)[|a + b| + i] == c[i];
    }
  }

  /** Where the lookups of `get_wri` fail, pass by pass, once the defending type is found. */
  lemma WriOfPasses(data: Dict<string, TypeEntry>, t: string, e: TypeEntry)
    requires Get(data, t) == Some(e)
    ensures UnknownAt(e.weaknesses, TypeIndices).Some? ==>
      WriOf(data, t) == Failure(KeyError(e.weaknesses[UnknownAt(e.weaknesses, TypeIndices).value]))
    ensures UnknownAt(e.weaknesses, TypeIndices).None? && UnknownAt(e.resistances, TypeIndices).Some? ==>
      WriOf(data, t) == Failure(KeyError(e.resistances[UnknownAt(e.resistances, TypeIndices).value]))
    ensures UnknownAt(e.weaknesses, TypeIndices).None? && UnknownAt(e.resistances, TypeIndices).None? && UnknownAt(e.immunities, TypeIndices).Some? ==>
      WriOf(data, t) == Failure(KeyError(e.immunities[UnknownAt(e.immunities, TypeIndices).value]))
    ensures UnknownAt(e.weaknesses, TypeIndices).None? && UnknownAt(e.resistances, TypeIndices).None? && UnknownAt(e.immunities, TypeIndices).None? ==>
      WriOf(data, t) == Success(Wri(e))
  {
    FirstUnknownOfThree(e.weaknesses, e.resistances, e.immunities, TypeIndices);
  }

  /** The three overwriting passes over a neutral vector give the precedence vector. */
  lemma PassesGiveWri(e: TypeEntry, v0: seq<real>, v1: seq<real>, v2: seq<real>, v3: seq<real>)
    requires |v0| == |v1| == |v2| == |v3| == 18
    requires forall k :: 0 <= k < 18 ==> v0[k] == 1.0
    requires forall k :: 0 <= k < 18 ==> v1[k] == if Names(e.weaknesses, k) then 2.0 else v0[k]
    requires forall k :: 0 <= k < 18 ==> v2[k] == if Names(e.resistances, k) then 0.5 else v1[k]
    requires forall k :: 0 <= k < 18 ==> v3[k] == if Names(e.immunities, k) then 0.0 else v2[k]
    ensures v3 == Wri(e)
  {
    assert forall k :: 0 <= k < 18 ==> v3[k] == Wri(e)[k];
  }

  /**
   * `get_wri`: start from a neutral vector, write 2 into every weakness slot, then
   * 1/2 into every resistance slot, then 0 into every immunity slot. The result is
   * the precedence vector `Wri`; a defending type missing from the data, or an
   * attacking type name without a slot, raises KeyError naming the first such key.
   */
  method GetWri(data: Dict<string, TypeEntry>, t: string) returns (r: Result<seq<real>>)
    ensures r == WriOf(data, t)
  {
    var found := Get(data, t);
    if found.None? {
      return Failure(KeyError(t));
    }
    var e := found.value;
    WriOfPasses(data, t, e);
    var full := new real[18](_ => 1.0);
    ghost var neutral := full[..];

    var bad := Overwrite(full, e.weaknesses, 2.0);
    if bad.Some? {
      return Failure(KeyError(e.weaknesses[bad.value]));
    }
    ghost var afterWeak := full[..];
    bad := Overwrite(full, e.resistances, 0.5);
    if bad.Some? {
      return Failure(KeyError(e.resistances[bad.value]));
    }
    ghost var afterRes := full[..];
    bad := Overwrite(full, e.immunities, 0.0);
    if bad.Some? {
      return Failure(KeyError(e.immunities[bad.value]));
    }
    PassesGiveWri(e, neutral, afterWeak, afterRes, full[..]);
    return Success(full[..]);
  }

  /** Python's `zip` followed by elementwise multiplication. */
  function Product(a: seq<real>, b: seq<real>): (r: seq<real>)
    ensures |r| == if |a| <= |b| then |a| else |b|
  {
    seq(if |a| <= |b| then |a| else |b|, i requires 0 <= i < |a| && i < |b| => a[i] * b[i])
  }

  /**
   * `build_wri(types)`: for exactly two types the product of their vectors, for any
   * other non-empty list the first type's vector; an empty list raises IndexError.
   */
  function BuildWri(data: Dict<string, TypeEntry>, types: seq<string>): (r: Result<seq<real>>)
    ensures types == [] ==> r == Failure(IndexError)
    ensures r.Success? ==> |r.value| == 18
    ensures |types| != 2 && types != [] ==> r == WriOf(data, types[0])
  {
    if |types| == 2 then
      match WriOf(data, types[0])
      case Failure(e) => Failure(e)
      case Success(first) =>
        match WriOf(data, types[1])
        case Failure(e) => Failure(e)
        case Success(second) => Success(Product(first, second))
    else if types == [] then Failure(IndexError)
    else WriOf(data, types[0])
  }

  /** For a dual type: it fails iff a lookup fails, and otherwise is the slotwise product. */
  lemma BuildWriPair(data: Dict<string, TypeEntry>, x: string, y: string)
    ensures BuildWri(data, [x, y]).Success? <==> WriOf(data, x).Success? && WriOf(data, y).Success?
    ensures WriOf(data, x).Failure? ==> BuildWri(data, [x, y]) == Failure(WriOf(data, x).error)
    ensures WriOf(data, x).Success? && WriOf(data, y).Failure? ==> BuildWri(data, [x, y]) == Failure(WriOf(data, y).error)
    ensures BuildWri(data, [x, y]).Success? ==>
      forall k :: 0 <= k < 18 ==> BuildWri(data, [x, y]).value[k] == WriOf(data, x).value[k] * WriOf(data, y).value[k]
  {
  }

  /** The vector of a dual type does not depend on the order of its two types. */
  lemma BuildWriOrderIndependent(data: Dict<string, TypeEntry>, x: string, y: string)
    ensures BuildWri(data, [x, y]).Success? <==> BuildWri(data, [y, x]).Success?
    ensures BuildWri(data, [x, y]).Success? ==> BuildWri(data, [x, y]) == BuildWri(data, [y, x])
  {
    BuildWriPair(data, x, y);
    BuildWriPair(data, y, x);
    if BuildWri(data, [x, y]).Success? {
      var a := BuildWri(data, [x, y]).value;
      var b := BuildWri(data, [y, x]).value;
      assert forall k :: 0 <= k < 18 ==> a[k] == b[k];
      assert a == b;
    }
  }

  /** Every multiplier of a creature (one or two types) is 0, 1/4, 1/2, 1, 2 or 4. */
  lemma BuildWriRange(data: Dict<string, TypeEntry>, types: seq<string>, k: nat)
    requires k < 18 && BuildWri(data, types).Success?
    ensures BuildWri(data, types).value[k] in {0.0, 0.25, 0.5, 1.0, 2.0, 4.0}
  {
    var e := Get(data, types[0]).value;
    WriRange(e, k);
    if |types| == 2 {
      WriRange(Get(data, types[1]).value, k);
    }
  }

  /** The square of the Euclidean norm. */
  function SquaredNorm(v: seq<real>): real {
    if v == [] then 0.0 else Square(v[0]) + SquaredNorm(v[1..])
  }

  function Square(x: real): real {
    x * x
  }

  /** The squared norm is non-negative, and zero exactly when every slot is zero. */
  lemma {:induction false} SquaredNormZero(v: seq<real>)
    ensures SquaredNorm(v) >= 0.0
    ensures SquaredNorm(v) == 0.0 <==> forall i :: 0 <= i < |v| ==> v[i] == 0.0
  {
    if v != [] {
      SquaredNormZero(v[1..]);
      assert forall i :: 1 <= i < |v| ==> v[i] == v[1..][i - 1];
      if v[0] != 0.0 {
        SquarePositive(v[0]);
        calc {
          SquaredNorm(v);
        ==
          Square(v[0]) + SquaredNorm(v[1..]);
        >=
          Square(v[0]);
        ==
          v[0] * v[0];
        >
          0.0;
        }
      }
    }
  }

  lemma SquarePositive(x: real)
    requires x != 0.0
    ensures x * x > 0.0
  {
  }

  /**
   * `type_synergy(types_1, types_2)`, squared: the squared norm of the elementwise
   * product of the two creatures' vectors. The vector of `types_1` is built first,
   * so its error is the one raised when both fail.
   */
  function TypeSynergy(data: Dict<string, TypeEntry>, types1: seq<string>, types2: seq<string>): (r: Result<real>)
    ensures r.Success? <==> BuildWri(data, types1).Success? && BuildWri(data, types2).Success?
    ensures BuildWri(data, types1).Failure? ==> r == Failure(BuildWri(data, types1).error)
  {
    match BuildWri(data, types1)
    case Failure(e) => Failure(e)
    case Success(a) =>
      match BuildWri(data, types2)
      case Failure(e) => Failure(e)
      case Success(b) => Success(SquaredNorm(Product(a, b)))
  }

  /** The synergy score does not depend on which creature comes first. */
  lemma TypeSynergySymmetric(data: Dict<string, TypeEntry>, types1: seq<string>, types2: seq<string>)
    ensures TypeSynergy(data, types1, types2).Success? <==> TypeSynergy(data, types2, types1).Success?
    ensures TypeSynergy(data, types1, types2).Success? ==>
      TypeSynergy(data, types1, types2) == TypeSynergy(data, types2, types1)
  {
    if TypeSynergy(data, types1, types2).Success? {
      var a := BuildWri(data, types1).value;
      var b := BuildWri(data, types2).value;
      assert Product(a, b) == Product(b, a);
    }
  }

  /**
   * The synergy score is non-negative, and zero exactly when every slot of the
   * product of the two creatures' vectors is zero.
   */
  lemma TypeSynergyZero(data: Dict<string, TypeEntry>, types1: seq<string>, types2: seq<string>)
    requires TypeSynergy(data, types1, types2).Success?
    ensures TypeSynergy(data, types1, types2).value >= 0.0
    ensures TypeSynergy(data, types1, types2).value == 0.0 <==>
      forall k :: 0 <= k < 18 ==> Product(BuildWri(data, types1).value, BuildWri(data, types2).value)[k] == 0.0
  {
    SquaredNormZero(Product(BuildWri(data, types1).value, BuildWri(data, types2).value));
  }
}
