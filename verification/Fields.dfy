/** The fields of a query: aggregation keys, sort key and output fields, which refer to entries of one
    common array. */
module Fields {
  import opened Options
  import opened Ordering
  import opened Aggregation

  const AGGR_KEYS_MAX: nat := 10
  const OUTPUT_FIELDS_MAX: nat := 30
  const ALL_FIELDS_MAX: nat := 41

  /** How a field is aggregated; unused entries have no function. */
  datatype FieldFunc = NoFunc | KeyOnly | Merged(func: AggrFunc)

  /** What the flow library knows about its fields; their numbers lie strictly between 0 and `end`. */
  datatype Library = Library(end: nat, size: nat -> nat, func: nat -> FieldFunc, direction: nat -> Option<Direction>,
                             noKey: nat -> bool) {
    ghost predicate Valid() {
      forall id: nat | IsField(id) :: size(id) > 0 && func(id) != NoFunc
    }

    predicate IsField(id: nat) {
      0 < id < end
    }

    /** A field without a default aggregation function is aggregated by its minimum. */
    function DefaultFunc(id: nat): FieldFunc {
      if func(id) == KeyOnly then Merged(Min) else func(id)
    }
  }

  /** An unused entry has the number zero. */
  datatype Field = Field(id: nat, size: nat)

  /** A pointer to an entry of the common array. */
  datatype Ref = Null | To(index: nat)

  datatype AggrKey = AggrKey(field: Ref, alignment: int, ipv6Alignment: int)
  datatype SortKey = SortKey(field: Ref, direction: Option<Direction>, func: FieldFunc)
  datatype OutputField = OutputField(field: Ref, func: FieldFunc)

  function SizeSum(s: seq<Field>): nat {
    if |s| == 0 then 0 else SizeSum(s[..|s| - 1]) + s[|s| - 1].size
  }

  function IdsOf(s: seq<Field>): (r: seq<nat>)
    ensures |r| == |s|
  {
    seq(|s|, i requires 0 <= i < |s| => s[i].id)
  }

  function AppendOne(ids: seq<nat>, id: nat): seq<nat> {
    if id in ids then ids else ids + [id]
  }

  /** Appends what is not there yet, one after the other. */
  function AppendNew(ids: seq<nat>, more: seq<nat>): seq<nat> {
    if |more| == 0 then ids else AppendOne(AppendNew(ids, more[..|more| - 1]), more[|more| - 1])
  }

  class FieldSet {
    const lib: Library
    const all: array<Field>
    const aggrKeys: array<AggrKey>
    const outputFields: array<OutputField>
    var allCnt: nat
    var sizesSum: nat
    var keysCnt: nat
    var sortKey: SortKey
    var outputsCnt: nat

    /** The sort key has an entry of its own if it is not one of the aggregation keys. */
    function OwnSortKey(): nat
      reads this`sortKey, this`keysCnt
    {
      if sortKey.field == To(keysCnt) then 1 else 0
    }

    ghost predicate ValidAll()
      reads this`allCnt, this`sizesSum, all
    {
      && all.Length == ALL_FIELDS_MAX && allCnt <= all.Length
      && (forall i | 0 <= i < allCnt :: lib.IsField(all[i].id) && all[i].size == lib.size(all[i].id))
      && (forall i | allCnt <= i < all.Length :: all[i].id == 0)
      && (forall i, j | 0 <= i < j < allCnt :: all[i].id != all[j].id)
      && sizesSum == SizeSum(all[..allCnt])
    }

    ghost predicate ValidKeys()
      reads this`keysCnt, aggrKeys
    {
      && aggrKeys.Length == AGGR_KEYS_MAX && keysCnt <= aggrKeys.Length
      && (forall i | 0 <= i < keysCnt ::
            aggrKeys[i].field == To(i) && aggrKeys[i].alignment >= 0 && aggrKeys[i].ipv6Alignment >= 0)
      && (forall i | keysCnt <= i < aggrKeys.Length :: aggrKeys[i].field == Null)
    }

    ghost predicate ValidSort()
      reads this`sortKey, this`keysCnt
    {
      sortKey.field.To? ==> sortKey.field.index <= keysCnt && sortKey.direction != None && sortKey.func != NoFunc
    }

    ghost predicate ValidOutputs()
      reads this`sortKey, this`keysCnt, this`outputsCnt, outputFields
    {
      && outputFields.Length == OUTPUT_FIELDS_MAX && outputsCnt <= outputFields.Length
      && (forall i | 0 <= i < outputsCnt ::
            outputFields[i].field == To(keysCnt + OwnSortKey() + i) && outputFields[i].func != NoFunc)
      && (forall i | outputsCnt <= i < outputFields.Length :: outputFields[i].field == Null)
    }

    /** The common array holds the aggregation keys, then the sort key unless it is one of them, then
        the output fields. */
    ghost predicate Valid()
      reads this, all, aggrKeys, outputFields
    {
      && lib.Valid() && ValidAll() && ValidKeys() && ValidSort() && ValidOutputs()
      && allCnt == keysCnt + OwnSortKey() + outputsCnt
    }

    ghost function Ids(): seq<nat>
      requires ValidAll()
      reads this`allCnt, this`sizesSum, all
    {
      IdsOf(all[..allCnt])
    }

    constructor (lib: Library)
      requires lib.Valid()
      ensures Valid() && this.lib == lib && Ids() == [] && keysCnt == 0 && sortKey.field == Null && outputsCnt == 0
      ensures fresh(all) && fresh(aggrKeys) && fresh(outputFields)
    {
      this.lib := lib;
      all := new Field[ALL_FIELDS_MAX](_ => Field(0, 0));
      aggrKeys := new AggrKey[AGGR_KEYS_MAX](_ => AggrKey(Null, 0, 0));
      outputFields := new OutputField[OUTPUT_FIELDS_MAX](_ => OutputField(Null, NoFunc));
      allCnt, sizesSum, keysCnt, outputsCnt := 0, 0, 0, 0;
      sortKey := SortKey(Null, None, NoFunc);
    }

    method GetFromAll(id: nat) returns (r: Ref)
      requires ValidAll()
      ensures r == Null <==> id !in Ids()
      ensures r.To? ==> r.index < allCnt && all[r.index].id == id
    {
      var i := 0;
      while i < allCnt
        invariant i <= allCnt && forall j | 0 <= j < i :: all[j].id != id
      {
        if all[i].id == id {
          assert Ids()[i] == id;
          return To(i);
        }
        i := i + 1;
      }
      return Null;
    }

    /** Appends a field that is not there yet; null if the array is full. */
    method AddToAll(id: nat) returns (r: Ref)
      requires lib.Valid() && ValidAll() && lib.IsField(id) && id !in Ids()
      modifies all, this`allCnt, this`sizesSum
      ensures r == Null <==> old(allCnt) == ALL_FIELDS_MAX
      ensures r == Null ==> allCnt == old(allCnt) && sizesSum == old(sizesSum) && all[..] == old(all[..])
      ensures r != Null ==> r == To(old(allCnt)) && allCnt == old(allCnt) + 1 && all[r.index].id == id
      ensures ValidAll() && Ids() == old(Ids()) + if r == Null then [] else [id]
    {
      if allCnt == ALL_FIELDS_MAX {
        return Null;
      }
      forall i | 0 <= i < allCnt
        ensures all[i].id != id
      {
        assert Ids()[i] == all[i].id;
      }
      all[allCnt] := Field(id, lib.size(id));
      assert all[..allCnt + 1] == all[..allCnt] + [all[allCnt]];
      assert all[..allCnt] == old(all[..allCnt]);
      r := To(allCnt);
      sizesSum := sizesSum + lib.size(id);
      allCnt := allCnt + 1;
    }

    /** Aggregation keys come first. */
    method AddAggrKey(id: nat, alignment: nat, ipv6Alignment: nat) returns (ok: bool)
      requires Valid() && lib.IsField(id) && sortKey.field == Null && outputsCnt == 0
      modifies this`allCnt, this`sizesSum, this`keysCnt, all, aggrKeys
      ensures Valid()
      ensures ok <==> old(keysCnt) < AGGR_KEYS_MAX && (id in old(Ids()) || !lib.noKey(id))
      ensures Ids() == if ok then AppendOne(old(Ids()), id) else old(Ids())
      ensures aggrKeys[..keysCnt] == old(aggrKeys[..keysCnt]) +
        if ok && id !in old(Ids()) then [AggrKey(To(old(keysCnt)), alignment, ipv6Alignment)] else []
    {
      if keysCnt == AGGR_KEYS_MAX {
        return false;
      }
      var present := GetFromAll(id);
      if present != Null {
        return true;
      }
      if lib.noKey(id) {
        return false;
      }
      NewKey(id, alignment, ipv6Alignment);
      return true;
    }

    method NewKey(id: nat, alignment: nat, ipv6Alignment: nat)
      requires Valid() && lib.IsField(id) && sortKey.field == Null && outputsCnt == 0
      requires id !in Ids() && keysCnt < AGGR_KEYS_MAX
      modifies this`allCnt, this`sizesSum, this`keysCnt, all, aggrKeys
      ensures Valid() && Ids() == old(Ids()) + [id]
      ensures aggrKeys[..keysCnt] == old(aggrKeys[..keysCnt]) + [AggrKey(To(old(keysCnt)), alignment, ipv6Alignment)]
    {
      var field := AddToAll(id);
      assert field != Null;
      AppendKey(AggrKey(field, alignment, ipv6Alignment));
    }

    method AppendKey(key: AggrKey)
      requires ValidKeys() && keysCnt < AGGR_KEYS_MAX
      requires key.field == To(keysCnt) && key.alignment >= 0 && key.ipv6Alignment >= 0
      modifies this`keysCnt, aggrKeys
      ensures ValidKeys() && keysCnt == old(keysCnt) + 1
      ensures aggrKeys[..keysCnt] == old(aggrKeys[..keysCnt]) + [key]
    {
      aggrKeys[keysCnt] := key;
      keysCnt := keysCnt + 1;
    }

    /** The entry of a field, appended if it is not there yet. */
    method FindOrAdd(id: nat) returns (r: Ref)
      requires lib.Valid() && ValidAll() && lib.IsField(id) && allCnt < ALL_FIELDS_MAX
      modifies all, this`allCnt, this`sizesSum
      ensures ValidAll() && Ids() == AppendOne(old(Ids()), id)
      ensures r.To? && r.index < allCnt && all[r.index].id == id
      ensures allCnt == old(allCnt) || (allCnt == old(allCnt) + 1 && r.index == old(allCnt))
    {
      r := GetFromAll(id);
      if r == Null {
        r := AddToAll(id);
      }
    }

    /** The sort key comes second, and once. */
    method SetSortKey(id: nat, direction: Option<Direction>) returns (ok: bool)
      requires Valid() && lib.IsField(id) && sortKey.field == Null && outputsCnt == 0
      modifies this`allCnt, this`sizesSum, this`sortKey, all
      ensures Valid()
      ensures ok <==> lib.direction(id) != None
      ensures Ids() == if ok then AppendOne(old(Ids()), id) else old(Ids())
      ensures !ok ==> sortKey == old(sortKey)
      ensures ok ==> sortKey.field.To? && sortKey.field.index < allCnt && all[sortKey.field.index].id == id
      ensures ok ==> sortKey.direction == if direction == None then lib.direction(id) else direction
      ensures ok ==> sortKey.func == if lib.func(id) == KeyOnly then Merged(Min) else lib.func(id)
    {
      var defaultDirection := lib.direction(id);
      if defaultDirection == None {
        return false;
      }
      var field := FindOrAdd(id);
      sortKey := SortKey(field, if direction == None then defaultDirection else direction, lib.DefaultFunc(id));
      return true;
    }

    method AddOutputField(id: nat) returns (ok: bool)
      requires Valid() && lib.IsField(id)
      modifies this`allCnt, this`sizesSum, this`outputsCnt, all, outputFields
      ensures Valid()
      ensures ok <==> old(outputsCnt) < OUTPUT_FIELDS_MAX
      ensures Ids() == if ok then AppendOne(old(Ids()), id) else old(Ids())
      ensures outputFields[..outputsCnt] == old(outputFields[..outputsCnt]) +
        if !ok || id in old(Ids()) then []
        else [OutputField(To(old(allCnt)), if lib.func(id) == KeyOnly then Merged(Min) else lib.func(id))]
    {
      if outputsCnt == OUTPUT_FIELDS_MAX {
        return false;
      }
      var present := GetFromAll(id);
      if present != Null {
        return true;
      }
      NewOutputField(id);
      return true;
    }

    method NewOutputField(id: nat)
      requires Valid() && lib.IsField(id) && id !in Ids() && outputsCnt < OUTPUT_FIELDS_MAX
      modifies this`allCnt, this`sizesSum, this`outputsCnt, all, outputFields
      ensures Valid() && Ids() == old(Ids()) + [id]
      ensures outputFields[..outputsCnt] ==
        old(outputFields[..outputsCnt]) + [OutputField(To(old(allCnt)), lib.DefaultFunc(id))]
    {
      var field := AddToAll(id);
      assert field != Null;
      AppendOutput(OutputField(field, lib.DefaultFunc(id)));
    }

    method AppendOutput(output: OutputField)
      requires ValidOutputs() && outputsCnt < OUTPUT_FIELDS_MAX
      requires output.field == To(keysCnt + OwnSortKey() + outputsCnt) && output.func != NoFunc
      modifies this`outputsCnt, outputFields
      ensures ValidOutputs() && outputsCnt == old(outputsCnt) + 1
      ensures outputFields[..outputsCnt] == old(outputFields[..outputsCnt]) + [output]
    {
      outputFields[outputsCnt] := output;
      outputsCnt := outputsCnt + 1;
    }

    ghost function KeySlots(): seq<AggrKey>
      requires ValidKeys()
      reads this`keysCnt, aggrKeys
    {
      aggrKeys[..keysCnt]
    }

    ghost function OutputSlots(): seq<OutputField>
      requires ValidOutputs()
      reads this`sortKey, this`keysCnt, this`outputsCnt, outputFields
    {
      outputFields[..outputsCnt]
    }

    // ----- the check made after parsing the arguments

    /** All pointers point into the common array. */
    ghost predicate InBounds()
      reads this, all, aggrKeys, outputFields
    {
      && all.Length == ALL_FIELDS_MAX && aggrKeys.Length == AGGR_KEYS_MAX && outputFields.Length == OUTPUT_FIELDS_MAX
      && (forall i | 0 <= i < aggrKeys.Length && aggrKeys[i].field.To? :: aggrKeys[i].field.index < all.Length)
      && (forall i | 0 <= i < outputFields.Length && outputFields[i].field.To? ::
        outputFields[i].field.index < all.Length)
      && (sortKey.field.To? ==> sortKey.field.index < all.Length)
    }

    ghost predicate KeysSound()
      requires InBounds()
      reads this, all, aggrKeys, outputFields
    {
      && keysCnt <= AGGR_KEYS_MAX
      && forall i | 0 <= i < keysCnt ::
           aggrKeys[i].field.To? && lib.IsField(all[aggrKeys[i].field.index].id)
           && aggrKeys[i].alignment >= 0 && aggrKeys[i].ipv6Alignment >= 0
    }

    predicate SortSound()
      requires sortKey.field.To? ==> sortKey.field.index < all.Length
      reads this, all
    {
      sortKey.field.To? ==>
        lib.IsField(all[sortKey.field.index].id) && sortKey.direction != None && sortKey.func != NoFunc
    }

    ghost predicate OutputsSound()
      requires InBounds()
      reads this, all, aggrKeys, outputFields
    {
      && outputsCnt <= OUTPUT_FIELDS_MAX
      && forall i | 0 <= i < outputsCnt ::
           outputFields[i].field.To? && lib.IsField(all[outputFields[i].field.index].id) &&
             outputFields[i].func != NoFunc
    }

    ghost predicate SizesSound()
      reads this, all
    {
      && allCnt <= ALL_FIELDS_MAX == all.Length
      && (forall i | 0 <= i < allCnt :: all[i].id != 0 && all[i].size != 0)
      && sizesSum == SizeSum(all[..allCnt])
    }

    ghost predicate IsKey(i: nat)
      requires keysCnt <= aggrKeys.Length
      reads this, aggrKeys
    {
      exists j | 0 <= j < keysCnt :: aggrKeys[j].field == To(i)
    }

    ghost predicate IsOutput(i: nat)
      requires outputsCnt <= outputFields.Length
      reads this, outputFields
    {
      exists j | 0 <= j < outputsCnt :: outputFields[j].field == To(i)
    }

    /** Every entry is used, and no output field is also a key. */
    ghost predicate RolesSound()
      requires keysCnt <= aggrKeys.Length && outputsCnt <= outputFields.Length
      reads this, aggrKeys, outputFields
    {
      forall i | 0 <= i < allCnt ::
        && (IsKey(i) || sortKey.field == To(i) || IsOutput(i))
        && !(IsKey(i) && IsOutput(i)) && !(sortKey.field == To(i) && IsOutput(i))
    }

    ghost predicate RestUnused()
      reads this, all
    {
      forall i | allCnt <= i < all.Length :: all[i].id == 0
    }

    ghost predicate Consistent()
      requires InBounds()
      reads this, all, aggrKeys, outputFields
    {
      KeysSound() && SortSound() && OutputsSound() && SizesSound() && RolesSound() && RestUnused()
    }

    method CheckKeys() returns (ok: bool)
      requires InBounds()
      ensures ok <==> KeysSound()
    {
      if keysCnt > AGGR_KEYS_MAX {
        return false;
      }
      for i := 0 to keysCnt
        invariant forall j | 0 <= j < i ::
          aggrKeys[j].field.To? && lib.IsField(all[aggrKeys[j].field.index].id)
          && aggrKeys[j].alignment >= 0 && aggrKeys[j].ipv6Alignment >= 0
      {
        var ak := aggrKeys[i];
        if ak.field == Null || !lib.IsField(all[ak.field.index].id) || ak.alignment < 0 || ak.ipv6Alignment < 0 {
          return false;
        }
      }
      return true;
    }

    method CheckOutputs() returns (ok: bool)
      requires InBounds()
      ensures ok <==> OutputsSound()
    {
      if outputsCnt > OUTPUT_FIELDS_MAX {
        return false;
      }
      for i := 0 to outputsCnt
        invariant forall j | 0 <= j < i ::
          outputFields[j].field.To? && lib.IsField(all[outputFields[j].field.index].id) &&
            outputFields[j].func != NoFunc
      {
        var of := outputFields[i];
        if of.field == Null || !lib.IsField(all[of.field.index].id) || of.func == NoFunc {
          return false;
        }
      }
      return true;
    }

    method CheckSizes() returns (ok: bool)
      requires InBounds()
      ensures ok <==> SizesSound()
    {
      if allCnt > ALL_FIELDS_MAX {
        return false;
      }
      var sum := 0;
      for i := 0 to allCnt
        invariant sum == SizeSum(all[..i])
        invariant forall j | 0 <= j < i :: all[j].id != 0 && all[j].size != 0
      {
        assert all[..i + 1][..i] == all[..i];
        sum := sum + all[i].size;
        if all[i].id == 0 || all[i].size == 0 {
          return false;
        }
      }
      return sum == sizesSum;
    }

    method CheckRoles() returns (ok: bool)
      requires InBounds() && keysCnt <= AGGR_KEYS_MAX && outputsCnt <= OUTPUT_FIELDS_MAX
      ensures ok <==> RolesSound()
    {
      for i := 0 to allCnt
        invariant forall n | 0 <= n < i ::
          && (IsKey(n) || sortKey.field == To(n) || IsOutput(n))
          && !(IsKey(n) && IsOutput(n)) && !(sortKey.field == To(n) && IsOutput(n))
      {
        var inKeys := false;
        for j := 0 to keysCnt
          invariant inKeys <==> exists n | 0 <= n < j :: aggrKeys[n].field == To(i)
        {
          if aggrKeys[j].field == To(i) {
            inKeys := true;
          }
        }
        var inOutputs := false;
        for j := 0 to outputsCnt
          invariant inOutputs <==> exists n | 0 <= n < j :: outputFields[n].field == To(i)
        {
          if outputFields[j].field == To(i) {
            inOutputs := true;
          }
        }
        assert inKeys == IsKey(i) && inOutputs == IsOutput(i);
        var isSortKey := sortKey.field == To(i);
        if !inKeys && !isSortKey && !inOutputs {
          return false;
        } else if inKeys && inOutputs {
          return false;
        } else if isSortKey && inOutputs {
          return false;
        }
      }
      return true;
    }

    method Check() returns (ok: bool)
      requires InBounds()
      ensures ok <==> Consistent()
    {
      ok := CheckKeys();
      if !ok || !SortSound() {
        return false;
      }
      ok := CheckOutputs();
      if !ok {
        return false;
      }
      ok := CheckSizes();
      if !ok {
        return false;
      }
      ok := CheckRoles();
      if !ok {
        return false;
      }
      for i := allCnt to ALL_FIELDS_MAX
        invariant forall j | allCnt <= j < i :: all[j].id == 0
      {
        if all[i].id != 0 {
          return false;
        }
      }
    }

    lemma ValidIsConsistent()
      requires Valid()
      ensures InBounds() && Consistent()
    {
      forall i | 0 <= i < allCnt
        ensures (IsKey(i) || sortKey.field == To(i) || IsOutput(i))
        ensures !(IsKey(i) && IsOutput(i)) && !(sortKey.field == To(i) && IsOutput(i))
      {
        var base := keysCnt + OwnSortKey();
        if i < keysCnt {
          assert aggrKeys[i].field == To(i);
        } else if i >= base {
          assert outputFields[i - base].field == To(i);
        }
      }
    }

    // ----- the header

    /** The columns of the enriched header of an aggregation, in the order they are printed. */
    method AggregationHeader() returns (columns: seq<nat>)
      requires Valid() && keysCnt > 0
      ensures columns == Ids()
    {
      columns := [];
      var sortKeyIsAggrKey := false;
      for i := 0 to keysCnt
        invariant columns == Ids()[..i]
        invariant sortKeyIsAggrKey <==> sortKey.field.To? && sortKey.field.index < i
      {
        if sortKey.field != Null && sortKey.field == aggrKeys[i].field {
          sortKeyIsAggrKey := true;
        }
        columns := columns + [all[aggrKeys[i].field.index].id];
      }
      if sortKey.field != Null && !sortKeyIsAggrKey {
        columns := columns + [all[sortKey.field.index].id];
      }
      for i := 0 to outputsCnt
        invariant columns == Ids()[..keysCnt + OwnSortKey() + i]
      {
        columns := columns + [all[outputFields[i].field.index].id];
      }
    }

    /** The same for a sorted list. */
    method SortHeader() returns (columns: seq<nat>)
      requires Valid() && keysCnt == 0 && sortKey.field != Null
      ensures columns == Ids()
    {
      columns := [all[sortKey.field.index].id];
      for i := 0 to outputsCnt
        invariant columns == Ids()[..1 + i]
      {
        columns := columns + [all[outputFields[i].field.index].id];
      }
    }
  }

  /** Each field once, in the order in which the fields came. */
  function InOrder(keys: seq<nat>, sortKey: Option<nat>, outputs: seq<nat>): seq<nat> {
    var first := AppendNew([], keys);
    AppendNew(if sortKey.Some? then AppendOne(first, sortKey.value) else first, outputs)
  }

  /** The first entries are the keys asked for, each with the alignments given where it came first. */
  ghost predicate KeysAre(ids: seq<nat>, slots: seq<AggrKey>, keys: seq<nat>, alignments: seq<(nat, nat)>)
    requires |keys| == |alignments|
  {
    |slots| <= |ids| && ids[..|slots|] == AppendNew([], keys) && AlignedAs(slots, ids[..|slots|], keys, alignments)
  }

  /** The sort key is the one asked for, in the direction given or else in that of the field. */
  ghost predicate SortKeyIs(lib: Library, ids: seq<nat>, entry: SortKey, id: Option<nat>,
                            direction: Option<Direction>) {
    match id
    case None => entry.field == Null
    case Some(n) =>
      && entry.field.To? && entry.field.index < |ids| && ids[entry.field.index] == n
      && entry.direction == (if direction.Some? then direction else lib.direction(n))
      && entry.func == if lib.func(n) == KeyOnly then Merged(Min) else lib.func(n)
  }

  /** The output fields are the last entries, each with the function of its field. */
  ghost predicate OutputsAre(lib: Library, ids: seq<nat>, slots: seq<OutputField>) {
    |slots| <= |ids| && MergedAs(lib, slots, ids[|ids| - |slots|..], |ids| - |slots|)
  }

  /** Slot `i` has the alignments given with the first occurrence of field `ids[i]`. */
  ghost predicate AlignedAs(slots: seq<AggrKey>, ids: seq<nat>, keys: seq<nat>, alignments: seq<(nat, nat)>)
    requires |keys| == |alignments|
  {
    |slots| == |ids| && forall i | 0 <= i < |slots| :: AlignedSlot(slots[i], i, ids[i], keys, alignments)
  }

  ghost predicate AlignedSlot(slot: AggrKey, i: nat, id: nat, keys: seq<nat>, alignments: seq<(nat, nat)>)
    requires |keys| == |alignments|
  {
    exists j | 0 <= j < |keys| ::
      keys[j] == id && id !in keys[..j] && slot == AggrKey(To(i), alignments[j].0, alignments[j].1)
  }

  /** Slot `i` refers to entry `base + i` and has the function of field `ids[i]`. */
  ghost predicate MergedAs(lib: Library, slots: seq<OutputField>, ids: seq<nat>, base: nat) {
    |slots| == |ids| && forall i | 0 <= i < |slots| ::
      slots[i] == OutputField(To(base + i), if lib.func(ids[i]) == KeyOnly then Merged(Min) else lib.func(ids[i]))
  }

  lemma {:induction false} AppendNewHas(ids: seq<nat>, more: seq<nat>, x: nat)
    ensures x in AppendNew(ids, more) <==> x in ids || x in more
  {
    if |more| > 0 {
      AppendNewHas(ids, more[..|more| - 1], x);
      assert more == more[..|more| - 1] + [more[|more| - 1]];
    }
  }

  lemma {:induction false} AppendNewKeeps(ids: seq<nat>, more: seq<nat>)
    ensures ids <= AppendNew(ids, more)
  {
    if |more| > 0 {
      AppendNewKeeps(ids, more[..|more| - 1]);
    }
  }

  /** Every field asked for is there, and no other. */
  lemma InOrderHas(keys: seq<nat>, sortKey: Option<nat>, outputs: seq<nat>, x: nat)
    ensures x in InOrder(keys, sortKey, outputs) <==> x in keys || sortKey == Some(x) || x in outputs
  {
    var first := AppendNew([], keys);
    AppendNewHas([], keys, x);
    AppendNewHas(if sortKey.Some? then AppendOne(first, sortKey.value) else first, outputs, x);
  }

  lemma AppendNext(ids: seq<nat>, more: seq<nat>, i: nat)
    requires i < |more|
    ensures AppendNew(ids, more[..i + 1]) == AppendOne(AppendNew(ids, more[..i]), more[i])
  {
    assert more[..i + 1][..i] == more[..i];
  }

  method AddKeys(fields: FieldSet, keys: seq<nat>, alignments: seq<(nat, nat)>) returns (ok: bool)
    requires fields.Valid() && fields.sortKey.field == Null && fields.outputsCnt == 0 && fields.Ids() == []
    requires |keys| == |alignments| && forall i | 0 <= i < |keys| :: fields.lib.IsField(keys[i])
    modifies fields`allCnt, fields`sizesSum, fields`keysCnt, fields.all, fields.aggrKeys
    ensures fields.Valid()
    ensures ok ==> fields.Ids() == AppendNew([], keys) && KeysAre(fields.Ids(), fields.KeySlots(), keys, alignments)
  {
    var i := 0;
    while i < |keys|
      invariant 0 <= i <= |keys| && KeysAdded(fields, keys, alignments, i)
    {
      ok := AddKey(fields, keys, alignments, i);
      if !ok {
        return;
      }
      i := i + 1;
    }
    assert keys[..i] == keys && fields.Ids()[..|fields.KeySlots()|] == fields.Ids();
    return true;
  }

  ghost predicate KeysAdded(fields: FieldSet, keys: seq<nat>, alignments: seq<(nat, nat)>, n: nat)
    requires n <= |keys| == |alignments|
    reads fields, fields.all, fields.aggrKeys, fields.outputFields
  {
    && fields.Valid() && fields.sortKey.field == Null && fields.outputsCnt == 0
    && fields.Ids() == AppendNew([], keys[..n])
    && AlignedAs(fields.KeySlots(), fields.Ids(), keys, alignments)
  }

  method AddKey(fields: FieldSet, keys: seq<nat>, alignments: seq<(nat, nat)>, i: nat) returns (ok: bool)
    requires i < |keys| == |alignments| && fields.lib.IsField(keys[i]) && KeysAdded(fields, keys, alignments, i)
    modifies fields`allCnt, fields`sizesSum, fields`keysCnt, fields.all, fields.aggrKeys
    ensures fields.Valid() && (ok ==> KeysAdded(fields, keys, alignments, i + 1))
  {
    ghost var ids, slots := fields.Ids(), fields.KeySlots();
    AppendNext([], keys, i);
    AlignNext(slots, ids, keys, alignments, i);
    ok := fields.AddAggrKey(keys[i], alignments[i].0, alignments[i].1);
  }

  /** One more key. */
  lemma AlignNext(slots: seq<AggrKey>, ids: seq<nat>, keys: seq<nat>, alignments: seq<(nat, nat)>, i: nat)
    requires |keys| == |alignments| && i < |keys| && AlignedAs(slots, ids, keys, alignments)
    requires ids == AppendNew([], keys[..i])
    ensures keys[i] !in ids ==>
      AlignedAs(slots + [AggrKey(To(|slots|), alignments[i].0, alignments[i].1)], ids + [keys[i]], keys, alignments)
  {
    AppendNewHas([], keys[..i], keys[i]);
    var slots' := slots + [AggrKey(To(|slots|), alignments[i].0, alignments[i].1)];
    var ids' := ids + [keys[i]];
    forall k | 0 <= k < |slots'|
      ensures keys[i] !in ids ==> AlignedSlot(slots'[k], k, ids'[k], keys, alignments)
    {
      if k < |slots| {
        assert AlignedSlot(slots[k], k, ids[k], keys, alignments);
      }
    }
  }

  method AddSortKey(fields: FieldSet, sortKey: Option<nat>, direction: Option<Direction>) returns (ok: bool)
    requires fields.Valid() && fields.sortKey.field == Null && fields.outputsCnt == 0
    requires sortKey.Some? ==> fields.lib.IsField(sortKey.value)
    modifies fields`allCnt, fields`sizesSum, fields`sortKey, fields.all
    ensures fields.Valid()
    ensures old(fields.Ids()) <= fields.Ids()
    ensures ok ==> SortKeyIs(fields.lib, fields.Ids(), fields.sortKey, sortKey, direction)
    ensures ok ==>
      fields.Ids() == if sortKey.Some? then AppendOne(old(fields.Ids()), sortKey.value) else old(fields.Ids())
  {
    ok := true;
    if sortKey.Some? {
      ok := fields.SetSortKey(sortKey.value, direction);
    }
  }

  method AddOutputs(fields: FieldSet, outputs: seq<nat>) returns (ok: bool)
    requires fields.Valid() && forall i | 0 <= i < |outputs| :: fields.lib.IsField(outputs[i])
    requires fields.outputsCnt == 0
    modifies fields`allCnt, fields`sizesSum, fields`outputsCnt, fields.all, fields.outputFields
    ensures fields.Valid()
    ensures ok ==>
      fields.Ids() == AppendNew(old(fields.Ids()), outputs) &&
        OutputsAre(fields.lib, fields.Ids(), fields.OutputSlots())
    ensures ok ==> old(fields.Ids()) <= fields.Ids()
  {
    AppendNewKeeps(fields.Ids(), outputs);
    var i := 0;
    while i < |outputs|
      invariant 0 <= i <= |outputs| && fields.Valid()
      invariant fields.Ids() == AppendNew(old(fields.Ids()), outputs[..i]) &&
        OutputsAre(fields.lib, fields.Ids(), fields.OutputSlots())
    {
      AppendNext(old(fields.Ids()), outputs, i);
      ok := AddOutput(fields, outputs[i]);
      if !ok {
        return;
      }
      i := i + 1;
    }
    assert outputs[..i] == outputs;
    return true;
  }

  method AddOutput(fields: FieldSet, id: nat) returns (ok: bool)
    requires fields.Valid() && fields.lib.IsField(id) && OutputsAre(fields.lib, fields.Ids(), fields.OutputSlots())
    modifies fields`allCnt, fields`sizesSum, fields`outputsCnt, fields.all, fields.outputFields
    ensures fields.Valid()
    ensures ok ==> fields.Ids() == AppendOne(old(fields.Ids()), id)
    ensures ok ==> OutputsAre(fields.lib, fields.Ids(), fields.OutputSlots())
  {
    ghost var ids, slots := fields.Ids(), fields.OutputSlots();
    ok := fields.AddOutputField(id);
    if ok {
      MergeNext(fields.lib, slots, ids, id, fields.OutputSlots(), fields.Ids());
    }
  }

  /** One more output field. */
  lemma MergeNext(lib: Library, slots: seq<OutputField>, ids: seq<nat>, id: nat, slots': seq<OutputField>,
                  ids': seq<nat>)
    requires OutputsAre(lib, ids, slots) && ids' == AppendOne(ids, id)
    requires slots' == slots + if id in ids then []
      else [OutputField(To(|ids|), if lib.func(id) == KeyOnly then Merged(Min) else lib.func(id))]
    ensures OutputsAre(lib, ids', slots')
  {
    var base := |ids| - |slots|;
    assert id !in ids ==> ids'[base..] == ids[base..] + [id];
  }

  /** The fields are as asked for. */
  ghost predicate Parsed(fields: FieldSet, keys: seq<nat>, alignments: seq<(nat, nat)>, sortKey: Option<nat>,
                         direction: Option<Direction>, outputs: seq<nat>)
    requires |keys| == |alignments|
    reads fields, fields.all, fields.aggrKeys, fields.outputFields
  {
    && fields.Valid() && fields.Ids() == InOrder(keys, sortKey, outputs)
    && KeysAre(fields.Ids(), fields.KeySlots(), keys, alignments)
    && SortKeyIs(fields.lib, fields.Ids(), fields.sortKey, sortKey, direction)
    && OutputsAre(fields.lib, fields.Ids(), fields.OutputSlots())
  }

  /** The calls made while the arguments are parsed: aggregation keys, then the sort key if there is
      one, then the output fields. Whatever they are, the check that follows succeeds. */
  method ParseFields(fields: FieldSet, keys: seq<nat>, alignments: seq<(nat, nat)>, sortKey: Option<nat>,
                     direction: Option<Direction>,
                     outputs: seq<nat>) returns (ok: bool)
    requires fields.Valid() && fields.Ids() == [] && fields.sortKey.field == Null && fields.outputsCnt == 0
    requires |keys| == |alignments| && forall i | 0 <= i < |keys| :: fields.lib.IsField(keys[i])
    requires sortKey.Some? ==> fields.lib.IsField(sortKey.value)
    requires forall i | 0 <= i < |outputs| :: fields.lib.IsField(outputs[i])
    modifies fields, fields.all, fields.aggrKeys, fields.outputFields
    ensures fields.InBounds() && fields.Consistent()
    ensures ok ==> Parsed(fields, keys, alignments, sortKey, direction, outputs)
  {
    ok := ParseCalls(fields, keys, alignments, sortKey, direction, outputs);
    var passed := CheckPasses(fields);
    assert passed;
    fields.ValidIsConsistent();
  }

  method ParseCalls(fields: FieldSet, keys: seq<nat>, alignments: seq<(nat, nat)>, sortKey: Option<nat>,
                    direction: Option<Direction>, outputs: seq<nat>) returns (ok: bool)
    requires fields.Valid() && fields.Ids() == [] && fields.sortKey.field == Null && fields.outputsCnt == 0
    requires |keys| == |alignments| && forall i | 0 <= i < |keys| :: fields.lib.IsField(keys[i])
    requires sortKey.Some? ==> fields.lib.IsField(sortKey.value)
    requires forall i | 0 <= i < |outputs| :: fields.lib.IsField(outputs[i])
    modifies fields, fields.all, fields.aggrKeys, fields.outputFields
    ensures fields.Valid() && (ok ==> Parsed(fields, keys, alignments, sortKey, direction, outputs))
  {
    ok := ParseKeys(fields, keys, alignments, sortKey, direction);
    if ok {
      ok := ParseOutputs(fields, keys, alignments, sortKey, direction, outputs);
    }
  }

  method ParseKeys(fields: FieldSet, keys: seq<nat>, alignments: seq<(nat, nat)>, sortKey: Option<nat>,
                   direction: Option<Direction>) returns (ok: bool)
    requires fields.Valid() && fields.Ids() == [] && fields.sortKey.field == Null && fields.outputsCnt == 0
    requires |keys| == |alignments| && forall i | 0 <= i < |keys| :: fields.lib.IsField(keys[i])
    requires sortKey.Some? ==> fields.lib.IsField(sortKey.value)
    modifies fields`allCnt, fields`sizesSum, fields`keysCnt, fields`sortKey, fields.all, fields.aggrKeys
    ensures fields.Valid() && fields.outputsCnt == 0
    ensures ok ==> KeysParsed(fields, keys, alignments, sortKey, direction)
  {
    ok := AddKeys(fields, keys, alignments);
    if ok {
      ok := AddSortKey(fields, sortKey, direction);
    }
  }

  ghost predicate KeysParsed(fields: FieldSet, keys: seq<nat>, alignments: seq<(nat, nat)>, sortKey: Option<nat>,
                             direction: Option<Direction>)
    requires |keys| == |alignments|
    reads fields, fields.all, fields.aggrKeys, fields.outputFields
  {
    && fields.Valid() && KeysAre(fields.Ids(), fields.KeySlots(), keys, alignments)
    && SortKeyIs(fields.lib, fields.Ids(), fields.sortKey, sortKey, direction)
    && fields.Ids() == InOrder(keys, sortKey, [])
  }

  method ParseOutputs(fields: FieldSet, keys: seq<nat>, alignments: seq<(nat, nat)>, sortKey: Option<nat>,
                      direction: Option<Direction>, outputs: seq<nat>) returns (ok: bool)
    requires |keys| == |alignments| && KeysParsed(fields, keys, alignments, sortKey, direction) &&
      fields.outputsCnt == 0
    requires forall i | 0 <= i < |outputs| :: fields.lib.IsField(outputs[i])
    modifies fields`allCnt, fields`sizesSum, fields`outputsCnt, fields.all, fields.outputFields
    ensures fields.Valid() && (ok ==> Parsed(fields, keys, alignments, sortKey, direction, outputs))
  {
    ok := AddOutputs(fields, outputs);
  }

  /** The check at the end of parsing succeeds. */
  method CheckPasses(fields: FieldSet) returns (passed: bool)
    requires fields.Valid()
    ensures passed
  {
    fields.ValidIsConsistent();
    passed := fields.Check();
  }
}
