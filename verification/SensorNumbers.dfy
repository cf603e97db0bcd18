/** Numbering sensors across the logical units of IPMI, and looking numbers and paths up
    (getSensorNumMap, getSensorNumberFromPath, getPathFromSensorNumber). */
module SensorNumbers {
  import opened Types
  import opened EntryPath

  const MAX_SENSORS_PER_LUN := 255
  const MAX_IPMI_SENSORS := 765
  const LUN1_SENSOR0 := 0x100
  const LUN3_SENSOR0 := 0x300
  const INVALID_SENSOR_NUMBER: uint16 := 0xFFFF
  const RESERVED_SENSOR_NUMBER := 0xFF
  const OS_CRITICAL_STOP: uint8 := 0x20

  // ---- the two-way map

  datatype SensorNumMap = SensorNumMap(left: map<int, string>, right: map<string, int>)

  const EMPTY := SensorNumMap(map[], map[])

  /** Both views hold the same pairs. */
  ghost predicate Bijective(m: SensorNumMap) {
    && (forall n | n in m.left :: m.left[n] in m.right && m.right[m.left[n]] == n)
    && (forall p | p in m.right :: m.right[p] in m.left && m.left[m.right[p]] == p)
  }

  /** `bimap::insert`: refused when the number or the path is there already. */
  function Insert(m: SensorNumMap, n: int, p: string): SensorNumMap {
    if n in m.left || p in m.right then m else SensorNumMap(m.left[n := p], m.right[p := n])
  }

  lemma {:induction false} InsertBijective(m: SensorNumMap, n: int, p: string)
    requires Bijective(m)
    ensures Bijective(Insert(m, n, p))
  {
  }

  predicate Distinct(paths: seq<string>) {
    forall i, j | 0 <= i < j < |paths| :: paths[i] != paths[j]
  }

  // ---- sequential numbering

  /** The number of the i-th sensor in closed form: 255 numbers in each of LUN 0, 1 and 3. */
  function SequentialNumber(i: nat): nat
    requires i < MAX_IPMI_SENSORS
  {
    [0, 1, 3][i / 255] * 256 + i % 255
  }

  lemma {:induction false} SequentialIncreasing(i: nat, j: nat)
    requires i < j < MAX_IPMI_SENSORS
    ensures SequentialNumber(i) < SequentialNumber(j)
  {
    assert i / 255 <= j / 255 <= 2;
  }

  /** The low byte is never 0xFF, LUN 2 is never used, and the low byte tells i modulo 255. */
  lemma {:induction false} SequentialShape(i: nat)
    requires i < MAX_IPMI_SENSORS
    ensures SequentialNumber(i) % 256 == i % 255 != RESERVED_SENSOR_NUMBER
    ensures SequentialNumber(i) / 256 == [0, 1, 3][i / 255] != 2
    ensures SequentialNumber(i) < LUN3_SENSOR0 + 255
  {
    assert i / 255 == 0 || i / 255 == 1 || i / 255 == 2;
  }

  /** The numbers of the closed form: low byte below 0xFF in LUN 0, 1 or 3. */
  predicate Assignable(n: int) {
    0 <= n < 0x400 && n % 256 != RESERVED_SENSOR_NUMBER && n / 256 != 2
  }

  /** The inverse of SequentialNumber. */
  function IndexOf(n: int): (i: nat)
    requires Assignable(n)
    ensures i < MAX_IPMI_SENSORS
  {
    (if n / 256 == 3 then 2 else n / 256) * 255 + n % 256
  }

  lemma {:induction false} IndexInverse(i: nat, n: int)
    ensures i < MAX_IPMI_SENSORS ==> Assignable(SequentialNumber(i)) && IndexOf(SequentialNumber(i)) == i
    ensures Assignable(n) ==> SequentialNumber(IndexOf(n)) == n
  {
    if i < MAX_IPMI_SENSORS {
      SequentialShape(i);
    }
    if Assignable(n) {
      assert n / 256 == 0 || n / 256 == 1 || n / 256 == 3;
      assert IndexOf(n) / 255 == if n / 256 == 3 then 2 else n / 256;
    }
  }

  /** The first position of a path. */
  function Position(paths: seq<string>, p: string): (i: nat)
    requires p in paths
    ensures i < |paths| && paths[i] == p && p !in paths[..i]
  {
    if paths[0] == p then 0 else 1 + Position(paths[1..], p)
  }

  /** The numbering of a list of sensors in closed form. */
  function Numbering(paths: seq<string>): SensorNumMap
    requires |paths| <= MAX_IPMI_SENSORS
  {
    SensorNumMap(
      map n: int | 0 <= n < 0x400 && Assignable(n) && IndexOf(n) < |paths| :: paths[IndexOf(n)],
      map p | p in paths :: SequentialNumber(Position(paths, p)))
  }

  /** The sensors that get a number. */
  function Prefix(tree: seq<string>): (p: seq<string>)
    ensures |p| <= MAX_IPMI_SENSORS
  {
    if |tree| <= MAX_IPMI_SENSORS then tree else tree[..MAX_IPMI_SENSORS]
  }

  lemma {:induction false} NumberingAt(paths: seq<string>, i: nat)
    requires i < |paths| <= MAX_IPMI_SENSORS
    ensures SequentialNumber(i) in Numbering(paths).left && Numbering(paths).left[SequentialNumber(i)] == paths[i]
  {
    IndexInverse(i, 0);
  }

  lemma {:induction false} NumberingBijective(paths: seq<string>)
    requires |paths| <= MAX_IPMI_SENSORS && Distinct(paths)
    ensures Bijective(Numbering(paths)) && InRange(Numbering(paths))
  {
    var m := Numbering(paths);
    forall n | n in m.left
      ensures m.left[n] in m.right && m.right[m.left[n]] == n
    {
      IndexInverse(0, n);
      assert Position(paths, paths[IndexOf(n)]) == IndexOf(n);
    }
    forall p | p in m.right
      ensures m.right[p] in m.left && m.left[m.right[p]] == p
    {
      NumberingAt(paths, Position(paths, p));
    }
  }

  /** One more sensor takes the next number. */
  lemma {:induction false} NumberingGrows(paths: seq<string>, p: string)
    requires |paths| < MAX_IPMI_SENSORS && p !in paths
    ensures Numbering(paths + [p]) == Insert(Numbering(paths), SequentialNumber(|paths|), p)
  {
    var i := |paths|;
    IndexInverse(i, 0);
    assert SequentialNumber(i) !in Numbering(paths).left && p !in Numbering(paths).right;
    LeftGrows(paths, p);
    RightGrows(paths, p);
  }

  lemma {:induction false} LeftGrows(paths: seq<string>, p: string)
    requires |paths| < MAX_IPMI_SENSORS
    ensures Numbering(paths + [p]).left == Numbering(paths).left[SequentialNumber(|paths|) := p]
  {
    var now, wanted := Numbering(paths + [p]).left, Numbering(paths).left[SequentialNumber(|paths|) := p];
    forall n: int
      ensures n in now <==> n in wanted
      ensures n in now ==> now[n] == wanted[n]
    {
      IndexInverse(|paths|, n);
    }
  }

  lemma {:induction false} RightGrows(paths: seq<string>, p: string)
    requires |paths| < MAX_IPMI_SENSORS && p !in paths
    ensures Numbering(paths + [p]).right == Numbering(paths).right[p := SequentialNumber(|paths|)]
  {
    var more := paths + [p];
    forall q | q in more
      ensures Position(more, q) == if q == p then |paths| else Position(paths, q)
    {
      PositionGrows(paths, p, q);
    }
    assert forall q :: q in more <==> q in paths || q == p;
  }

  lemma {:induction false} PositionGrows(paths: seq<string>, p: string, q: string)
    requires p !in paths && (q in paths || q == p)
    ensures q in paths + [p]
    ensures Position(paths + [p], q) == if q == p then |paths| else Position(paths, q)
  {
    var more := paths + [p];
    assert q == p ==> more[|paths|] == q;
    assert q in paths ==> more[Position(paths, q)] == q;
    var i := if q == p then |paths| else Position(paths, q);
    assert more[..i] == paths[..i];
    PositionUnique(more, q, i);
  }

  lemma {:induction false} PositionUnique(paths: seq<string>, p: string, i: nat)
    requires i < |paths| && paths[i] == p && p !in paths[..i]
    ensures Position(paths, p) == i
  {
  }

  /** The loop of getSensorNumMap: it raises exactly for 765 sensors or more, also when the
      765 all fit, and has then numbered the first 765. */
  method NumberSensors(tree: seq<string>) returns (m: SensorNumMap, raised: bool)
    requires Distinct(tree)
    ensures m == Numbering(Prefix(tree))
    ensures raised <==> |tree| >= MAX_IPMI_SENSORS
  {
    m, raised := EMPTY, false;
    var sensorNum, sensorIndex := 0, 0;
    assert m == Numbering(tree[..0]);
    for i := 0 to |tree|
      invariant i < MAX_IPMI_SENSORS
      invariant sensorNum == sensorIndex == SequentialNumber(i)
      invariant m == Numbering(tree[..i])
    {
      NextSensor(tree, i);
      NextNumber(i);
      m := Insert(m, sensorNum, tree[i]);
      sensorIndex := sensorIndex + 1;
      if sensorIndex == MAX_SENSORS_PER_LUN {
        sensorIndex := LUN1_SENSOR0;
      } else if sensorIndex == LUN1_SENSOR0 + MAX_SENSORS_PER_LUN {
        sensorIndex := LUN3_SENSOR0;
      } else if sensorIndex == LUN3_SENSOR0 + MAX_SENSORS_PER_LUN {
        assert tree[..i + 1] == Prefix(tree);
        raised := true;
        return;
      }
      sensorNum := sensorIndex;
    }
    assert tree[..|tree|] == tree;
  }

  lemma {:induction false} NextSensor(tree: seq<string>, i: nat)
    requires Distinct(tree) && i < |tree| && i < MAX_IPMI_SENSORS
    ensures Numbering(tree[..i + 1]) == Insert(Numbering(tree[..i]), SequentialNumber(i), tree[i])
  {
    assert tree[..i + 1] == tree[..i] + [tree[i]];
    assert tree[i] !in tree[..i];
    NumberingGrows(tree[..i], tree[i]);
  }

  /** The increments and jumps of the loop: the number after the last is 0x3FF. */
  lemma {:induction false} NextNumber(i: nat)
    requires i < MAX_IPMI_SENSORS
    ensures var next := SequentialNumber(i) + 1;
            if next == LUN3_SENSOR0 + MAX_SENSORS_PER_LUN then i + 1 == MAX_IPMI_SENSORS
            else i + 1 < MAX_IPMI_SENSORS
                 && SequentialNumber(i + 1)
                    == if next == MAX_SENSORS_PER_LUN then LUN1_SENSOR0
                       else if next == LUN1_SENSOR0 + MAX_SENSORS_PER_LUN then LUN3_SENSOR0
                       else next
  {
    assert i / 255 == 0 || i / 255 == 1 || i / 255 == 2;
  }

  // ---- numbers supplied by the sensors (strict mode)

  /** The source's test of a supplied number. */
  predicate Accepts(n: uint16) {
    !(n == INVALID_SENSOR_NUMBER || n % 256 == RESERVED_SENSOR_NUMBER || n / 256 == 2
      || n > LUN3_SENSOR0 + MAX_SENSORS_PER_LUN - 1)
  }

  /** Strict mode admits exactly the numbers sequential numbering can assign. */
  lemma {:induction false} AcceptsMeaning(n: uint16)
    ensures Accepts(n) <==> exists i: nat :: i < MAX_IPMI_SENSORS && SequentialNumber(i) == n
  {
    if Accepts(n) {
      var lun := n / 256;
      var i := (if lun == 3 then 2 else lun) * 255 + n % 256;
      assert lun == 0 || lun == 1 || lun == 3;
      assert i / 255 == if lun == 3 then 2 else lun;
      assert SequentialNumber(i) == n;
    }
    if i: nat :| i < MAX_IPMI_SENSORS && SequentialNumber(i) == n {
      SequentialShape(i);
    }
  }

  /** What the SensorNumber property of a sensor's services gave: None for no service, no
      such property or another type than uint8 and uint16. */
  datatype StrictSensor = StrictSensor(path: string, number: Option<uint16>)

  predicate Offers(s: StrictSensor, n: int) {
    s.number.Some? && s.number.value == n && Accepts(s.number.value)
  }

  /** The first of i sensors that offers number n. */
  function FirstOffer(sensors: seq<StrictSensor>, i: nat, n: int): (k: Option<nat>)
    requires i <= |sensors|
    ensures k.Some? ==>
              k.value < i && Offers(sensors[k.value], n) && forall j | 0 <= j < k.value :: !Offers(sensors[j], n)
    ensures k.None? ==> forall j | 0 <= j < i :: !Offers(sensors[j], n)
  {
    if i == 0 then None
    else
      var before := FirstOffer(sensors, i - 1, n);
      if before.Some? then before else if Offers(sensors[i - 1], n) then Some(i - 1) else None
  }

  /** Every acceptable number goes to the first sensor that offers it. */
  ghost predicate Strict(m: SensorNumMap, sensors: seq<StrictSensor>, i: nat)
    requires i <= |sensors|
  {
    && Bijective(m)
    && (forall n :: n in m.left <==> FirstOffer(sensors, i, n).Some?)
    && (forall n | n in m.left :: m.left[n] == sensors[FirstOffer(sensors, i, n).value].path)
  }

  method NumberStrictly(sensors: seq<StrictSensor>) returns (m: SensorNumMap)
    requires forall i, j | 0 <= i < j < |sensors| :: sensors[i].path != sensors[j].path
    ensures Strict(m, sensors, |sensors|)
  {
    m := EMPTY;
    for i := 0 to |sensors|
      invariant Strict(m, sensors, i)
    {
      if sensors[i].number.None? {
        continue;
      }
      var sensorNum := sensors[i].number.value;
      if sensorNum == INVALID_SENSOR_NUMBER || sensorNum % 256 == RESERVED_SENSOR_NUMBER || sensorNum / 256 == 2
         || sensorNum > LUN3_SENSOR0 + MAX_SENSORS_PER_LUN - 1 {
        continue;
      }
      if sensorNum in m.left {
        continue;
      }
      PathIsNew(m, sensors, i);
      InsertBijective(m, sensorNum, sensors[i].path);
      m := Insert(m, sensorNum, sensors[i].path);
    }
  }

  lemma {:induction false} PathIsNew(m: SensorNumMap, sensors: seq<StrictSensor>, i: nat)
    requires i < |sensors| && Strict(m, sensors, i)
    requires forall j, k | 0 <= j < k < |sensors| :: sensors[j].path != sensors[k].path
    ensures sensors[i].path !in m.right
  {
    assert forall n | n in m.left :: m.left[n] != sensors[i].path;
  }

  // ---- looking up

  function NumberFromPath(m: SensorNumMap, path: string): int {
    if path in m.right then m.right[path] else INVALID_SENSOR_NUMBER
  }

  /** n is the least number whose path lies under "/os/". */
  ghost predicate FirstOs(m: SensorNumMap, n: int) {
    && n in m.left
    && Contains(m.left[n], "/os/")
    && forall k | k in m.left && k < n :: !Contains(m.left[k], "/os/")
  }

  ghost predicate NoOs(m: SensorNumMap) {
    forall n | n in m.left :: !Contains(m.left[n], "/os/")
  }

  /** Numbers lie in the range of the three units, so ascending iteration visits 0 to 0x3FF. */
  ghost predicate InRange(m: SensorNumMap) {
    forall n | n in m.left :: 0 <= n < 0x400
  }

  /** The path of a number, empty when it has none. */
  function PathOf(m: SensorNumMap, n: int): string {
    if n in m.left then m.left[n] else ""
  }

  method PathFromSensorNumber(m: SensorNumMap, sensorNum: uint16, senType: uint8) returns (path: string)
    requires InRange(m)
    ensures senType != 0x20 || NoOs(m) ==> path == PathOf(m, sensorNum)
    ensures senType == 0x20 && !NoOs(m) ==> exists n :: FirstOs(m, n) && path == m.left[n]
  {
    if senType == OS_CRITICAL_STOP {
      for n := 0 to 0x400
        invariant forall k | k in m.left && k < n :: !Contains(m.left[k], "/os/")
      {
        if n in m.left {
          if Contains(m.left[n], "/os/") {
            assert FirstOs(m, n);
            return m.left[n];
          }
        }
      }
    }
    path := if sensorNum in m.left then m.left[sensorNum] else "";
  }

  /** Looking up by path and by number undo each other on a numbering of distinct paths; a
      path without a number is answered with one that no path has. */
  lemma {:induction false} LookupsInverse(paths: seq<string>, path: string, n: int)
    requires |paths| <= MAX_IPMI_SENSORS && Distinct(paths)
    ensures var m := Numbering(paths);
            && Bijective(m) && InRange(m)
            && PathOf(m, NumberFromPath(m, path)) == (if path in paths then path else "")
            && (n in m.left ==> NumberFromPath(m, PathOf(m, n)) == n)
  {
    NumberingBijective(paths);
  }

  /** With the OS sensor type the answer is the number's own path exactly when the number is
      the first under "/os/" or nothing is under it. */
  lemma {:induction false} OsLookup(m: SensorNumMap, n: int, k: int)
    requires Bijective(m) && FirstOs(m, k) && n in m.left
    ensures m.left[k] == m.left[n] <==> FirstOs(m, n)
  {
    if FirstOs(m, n) {
      assert !(k < n) && !(n < k);
    }
  }
}
