/** The sensor lists offered over D-Bus, keyed by the low byte of the sensor number
    (the getSensorNumNameMap family). */
module SensorNames {
  import opened Types
  import opened SensorNumbers

  // ---- type and name of a sensor path

  /** The last position of '/' before n, None when there is none. */
  function LastSlash(path: string, n: nat): (k: Option<nat>)
    requires n <= |path|
    ensures k.Some? ==> k.value < n && path[k.value] == '/'
  {
    if n == 0 then None else if path[n - 1] == '/' then Some(n - 1) else LastSlash(path, n - 1)
  }

  /** The component before the last one; the path itself when it has fewer than two slashes,
      and what follows the slash when the only one is at the start. */
  function TypeOf(path: string): string {
    var typeEnd := LastSlash(path, |path|);
    if typeEnd.None? then path
    else if typeEnd.value == 0 then path[1..]
    else
      var typeStart := LastSlash(path, typeEnd.value);
      if typeStart.None? then path else path[typeStart.value + 1..typeEnd.value]
  }

  function NameOf(path: string): string {
    var nameStart := LastSlash(path, |path|);
    if nameStart.None? then path else path[nameStart.value + 1..]
  }

  lemma {:induction false} LastSlashOf(path: string, n: nat, k: nat)
    requires k < n <= |path| && path[k] == '/'
    requires forall i | k < i < n :: path[i] != '/'
    ensures LastSlash(path, n) == Some(k)
  {
    if n - 1 != k {
      LastSlashOf(path, n - 1, k);
    }
  }

  /** A path made of a directory, a type and a name gives the type and the name back. */
  lemma {:induction false} SplitPath(dir: string, sensorType: string, name: string)
    requires '/' !in sensorType && '/' !in name
    ensures TypeOf(dir + "/" + sensorType + "/" + name) == sensorType
    ensures NameOf(dir + "/" + sensorType + "/" + name) == name
  {
    var path := dir + "/" + sensorType + "/" + name;
    var typeStart, typeEnd := |dir|, |dir| + 1 + |sensorType|;
    assert path[typeStart] == '/' && path[typeEnd] == '/';
    LastSlashOf(path, |path|, typeEnd);
    LastSlashOf(path, typeEnd, typeStart);
    assert path[typeStart + 1..typeEnd] == sensorType && path[typeEnd + 1..] == name;
  }

  // ---- the byte-keyed map

  type NameMap = map<uint8, string>

  /** The sensor counts: every type, or one type. */
  predicate Wanted(path: string, sensorType: Option<string>) {
    sensorType.None? || TypeOf(path) == sensorType.value
  }

  /** The map after the sensors with numbers below n, in ascending order. */
  function Flat(left: map<int, string>, sensorType: Option<string>, n: nat): NameMap {
    if n == 0 then map[]
    else
      var before := Flat(left, sensorType, n - 1);
      if n - 1 in left && Wanted(left[n - 1], sensorType) then before[CastU8(n - 1) := NameOf(left[n - 1])] else before
  }

  /** The largest number below the limit that has low byte k and counts. */
  function Largest(left: map<int, string>, sensorType: Option<string>, limit: nat, k: uint8): (n: Option<int>)
    ensures n.Some? ==>
              0 <= n.value < limit && n.value % 256 == k && n.value in left && Wanted(left[n.value], sensorType)
    ensures forall j | 0 <= j < limit && j % 256 == k && j in left && Wanted(left[j], sensorType) ::
              n.Some? && j <= n.value
  {
    if limit == 0 then None
    else if (limit - 1) % 256 == k && limit - 1 in left && Wanted(left[limit - 1], sensorType) then Some(limit - 1)
    else Largest(left, sensorType, limit - 1, k)
  }

  /** A byte is a key when some counted number has it as low byte, and then it holds the name
      of the sensor with the largest such number. */
  lemma {:induction false} FlatMeaning(left: map<int, string>, sensorType: Option<string>, limit: nat, k: uint8)
    ensures k in Flat(left, sensorType, limit) <==> Largest(left, sensorType, limit, k).Some?
    ensures k in Flat(left, sensorType, limit) ==>
              Flat(left, sensorType, limit)[k] == NameOf(left[Largest(left, sensorType, limit, k).value])
  {
    if limit > 0 {
      FlatMeaning(left, sensorType, limit - 1, k);
    }
  }

  const LIMIT := 0x400

  method GetSensorNumNameMap(numMap: Option<SensorNumMap>) returns (sensorMap: NameMap)
    ensures sensorMap == if numMap.None? then map[] else Flat(numMap.value.left, None, LIMIT)
  {
    sensorMap := map[];
    if numMap.None? {
      return;
    }
    for n := 0 to LIMIT
      invariant sensorMap == Flat(numMap.value.left, None, n)
    {
      if n in numMap.value.left {
        sensorMap := sensorMap[CastU8(n) := NameOf(numMap.value.left[n])];
      }
    }
  }

  /** Each type that has sensors is grouped with the flat map of its own sensors. */
  ghost predicate Grouped(groupedMap: map<string, NameMap>, left: map<int, string>, n: nat) {
    forall t :: Flat(left, Some(t), n) == (if t in groupedMap then groupedMap[t] else map[])
                && (t in groupedMap ==> groupedMap[t] != map[])
  }

  method GetSensorNumNameMapByType(numMap: Option<SensorNumMap>) returns (groupedMap: map<string, NameMap>)
    ensures numMap.None? ==> groupedMap == map[]
    ensures numMap.Some? ==> Grouped(groupedMap, numMap.value.left, LIMIT)
  {
    groupedMap := map[];
    if numMap.None? {
      return;
    }
    var left := numMap.value.left;
    for n := 0 to LIMIT
      invariant Grouped(groupedMap, left, n)
    {
      if n in left {
        var sensorType := TypeOf(left[n]);
        var group := if sensorType in groupedMap then groupedMap[sensorType] else map[];
        GroupGrows(groupedMap, left, n, group);
        groupedMap := groupedMap[sensorType := group[CastU8(n) := NameOf(left[n])]];
      }
    }
  }

  lemma {:induction false} GroupGrows(groupedMap: map<string, NameMap>, left: map<int, string>, n: nat, group: NameMap)
    requires Grouped(groupedMap, left, n) && n in left
    requires group == if TypeOf(left[n]) in groupedMap then groupedMap[TypeOf(left[n])] else map[]
    ensures Grouped(groupedMap[TypeOf(left[n]) := group[CastU8(n) := NameOf(left[n])]], left, n + 1)
  {
    var entry := group[CastU8(n) := NameOf(left[n])];
    assert CastU8(n) in entry;
    forall t
      ensures Flat(left, Some(t), n + 1) == if t == TypeOf(left[n]) then entry else Flat(left, Some(t), n)
    {
      assert Flat(left, Some(TypeOf(left[n])), n) == group;
    }
  }

  /** The entries of a map with keys below n, in ascending order (iteration of std::map). */
  function Pairs(m: NameMap, n: nat): seq<(uint8, string)>
    requires n <= 256
  {
    if n == 0 then [] else Pairs(m, n - 1) + if n - 1 in m then [(n - 1, m[n - 1])] else []
  }

  predicate Ascending(pairs: seq<(uint8, string)>) {
    forall i, j | 0 <= i < j < |pairs| :: pairs[i].0 < pairs[j].0
  }

  lemma {:induction false} PairsExact(m: NameMap, n: nat)
    requires n <= 256
    ensures Ascending(Pairs(m, n))
    ensures forall e :: e in Pairs(m, n) <==> e.0 < n && e.0 in m && m[e.0] == e.1
  {
    if n > 0 {
      PairsExact(m, n - 1);
      var before := Pairs(m, n - 1);
      assert forall i | 0 <= i < |before| :: before[i] in before;
    }
  }

  method GetSensorNumNameMapForType(numMap: Option<SensorNumMap>, sensorType: string)
    returns (result: seq<(uint8, string)>)
    ensures numMap.None? ==> result == []
    ensures numMap.Some? && sensorType == "All" ==>
              result == [(255, "All")] + Pairs(Flat(numMap.value.left, None, LIMIT), 256)
    ensures numMap.Some? && sensorType != "All" ==>
              result == Pairs(Flat(numMap.value.left, Some(sensorType), LIMIT), 256)
  {
    result := [];
    if numMap.None? {
      return;
    }
    var allTypes := sensorType == "All";
    var filteredMap := FilterByType(numMap.value.left, allTypes, sensorType);
    if allTypes {
      result := result + [(255, "All")];
    }
    ghost var head := result;
    for num := 0 to 256
      invariant result == head + Pairs(filteredMap, num)
    {
      if num in filteredMap {
        result := result + [(num, filteredMap[num])];
      }
    }
  }

  method FilterByType(left: map<int, string>, allTypes: bool, sensorType: string) returns (filteredMap: NameMap)
    ensures filteredMap == Flat(left, if allTypes then None else Some(sensorType), LIMIT)
  {
    filteredMap := map[];
    for n := 0 to LIMIT
      invariant filteredMap == Flat(left, if allTypes then None else Some(sensorType), n)
    {
      if n in left {
        var t := TypeOf(left[n]);
        if allTypes || t == sensorType {
          filteredMap := filteredMap[CastU8(n) := NameOf(left[n])];
        }
      }
    }
  }

  /** The list for a type is the grouped map's entry for it, in strictly ascending order. */
  lemma {:induction false} ForTypeListsGroup(groupedMap: map<string, NameMap>, left: map<int, string>,
      sensorType: string)
    requires Grouped(groupedMap, left, LIMIT)
    ensures var list := Pairs(Flat(left, Some(sensorType), LIMIT), 256);
            && Ascending(list)
            && forall e :: e in list <==> && sensorType in groupedMap
                                          && e.0 in groupedMap[sensorType]
                                          && groupedMap[sensorType][e.0] == e.1
  {
    PairsExact(Flat(left, Some(sensorType), LIMIT), 256);
  }

  // ---- sequentially numbered sensors

  /** The last of n sensors whose index is k modulo 255. */
  function LastWith(n: nat, k: nat): (i: nat)
    requires k < 255 && k < n
    ensures i < n && i % 255 == k && n <= i + 255
  {
    if n - 1 - k < 255 then k else k + (n - 1 - k) / 255 * 255
  }

  /** For n sequentially numbered sensors the flat map has the keys below min(n, 255), each
      with the name of the sensor of largest index congruent to it. */
  lemma {:induction false} SequentialFlat(paths: seq<string>, k: uint8)
    requires |paths| <= MAX_IPMI_SENSORS
    ensures k in Flat(Numbering(paths).left, None, LIMIT) <==> k < |paths| && k < 255
    ensures k < |paths| && k < 255 ==>
              Flat(Numbering(paths).left, None, LIMIT)[k] == NameOf(paths[LastWith(|paths|, k)])
  {
    var left := Numbering(paths).left;
    FlatMeaning(left, None, LIMIT, k);
    var largest := Largest(left, None, LIMIT, k);
    if k < |paths| && k < 255 {
      var i := LastWith(|paths|, k);
      SequentialShape(i);
      NumberingAt(paths, i);
      NoLaterIndex(paths, k, largest.value);
    } else if largest.Some? {
      IndexInverse(0, largest.value);
      SequentialShape(IndexOf(largest.value));
    }
  }

  /** A number with low byte k that is at least that of the last index with k is that number. */
  lemma {:induction false} NoLaterIndex(paths: seq<string>, k: uint8, n: int)
    requires |paths| <= MAX_IPMI_SENSORS && k < |paths| && k < 255
    requires n in Numbering(paths).left && n % 256 == k && n >= SequentialNumber(LastWith(|paths|, k))
    ensures n == SequentialNumber(LastWith(|paths|, k))
  {
    var i := LastWith(|paths|, k);
    IndexInverse(i, n);
    SequentialShape(IndexOf(n));
    if IndexOf(n) < i {
      SequentialIncreasing(IndexOf(n), i);
    }
  }

  /** The synthetic entry 255 of the list of all sensors never meets a sensor's key. */
  lemma {:induction false} AllEntryIsAlone(paths: seq<string>, sensorType: Option<string>)
    requires |paths| <= MAX_IPMI_SENSORS
    ensures 255 !in Flat(Numbering(paths).left, sensorType, LIMIT)
  {
    FlatMeaning(Numbering(paths).left, sensorType, LIMIT, 255);
  }
}
