/** How a JSON table becomes numbered D-Bus list objects: four buckets of rows, each
    turned into parallel columns (parsePefConfToDbus). */
module Tables {
  import opened Types
  import opened Json

  /** A table row: the members of one element of the table's JSON array. */
  type Row = map<string, Json>

  /** The name of a table's section, the number of rows in each list but the last, and the
      published properties with their types. */
  datatype TableSpec = TableSpec(section: string, width: nat, kinds: map<string, Kind>)

  const LISTS := 4

  /** `row.value(p, 0)`. */
  function NumberOf(row: Row, p: string): int {
    if p in row && row[p].Num? then row[p].n else 0
  }

  /** `static_cast<uint8_t>(row.value(p, 0))`. */
  function U8Of(row: Row, p: string): uint8 {
    CastU8(NumberOf(row, p))
  }

  /** `row.value(p, "")`. */
  function TextOf(row: Row, p: string): string {
    if p in row && row[p].Str? then row[p].s else ""
  }

  // ---- buckets

  /** Where list b starts. */
  function Start(width: nat, n: nat, b: nat): nat {
    Min(b * width, n)
  }

  function End(width: nat, n: nat, b: nat): nat {
    if b + 1 >= LISTS then n else Min((b + 1) * width, n)
  }

  /** The rows of list b; the last list takes everything that is left. */
  function Bucket<T>(width: nat, rows: seq<T>, b: nat): seq<T>
    requires b < LISTS
  {
    StartBeforeEnd(width, |rows|, b);
    rows[Start(width, |rows|, b)..End(width, |rows|, b)]
  }

  lemma {:induction false} StartBeforeEnd(width: nat, n: nat, b: nat)
    requires b < LISTS
    ensures Start(width, n, b) <= End(width, n, b) <= n
  {
    assert (b + 1) * width == b * width + width;
  }

  /** The number of lists that have rows. */
  function ListCount(width: nat, n: nat): (g: nat)
    requires width > 0
    ensures g <= LISTS
  {
    Min(LISTS, (n + width - 1) / width)
  }

  lemma {:induction false} BucketNonEmpty<T>(width: nat, rows: seq<T>, b: nat)
    requires width > 0 && b < LISTS
    ensures Bucket(width, rows, b) != [] <==> b < ListCount(width, |rows|)
  {
    StartBeforeEnd(width, |rows|, b);
    StartInside(width, |rows|, b);
  }

  lemma {:induction false} StartInside(width: nat, n: nat, b: nat)
    requires width > 0 && b < LISTS
    ensures Start(width, n, b) < End(width, n, b) <==> b < ListCount(width, n)
  {
    var q := (n + width - 1) / width;
    assert (b + 1) * width == b * width + width;
    assert n + width - 1 == q * width + (n + width - 1) % width;
    if b < q {
      Scale(b + 1, q, width);
    } else {
      Scale(q, b, width);
    }
  }

  lemma {:induction false} Scale(a: nat, b: nat, width: nat)
    requires a <= b
    ensures a * width <= b * width
  {
  }

  /** How many rows the first k buckets hold. */
  function Covered(width: nat, n: nat, k: nat): (c: nat)
    requires k <= LISTS
    ensures c <= n
    ensures k == LISTS ==> c == n
  {
    if k == 0 then 0 else End(width, n, k - 1)
  }

  /** The buckets follow each other without gap or overlap, so together they are the table,
      however many rows it has. */
  lemma {:induction false} BucketExtends<T>(width: nat, rows: seq<T>, k: nat)
    requires k < LISTS
    ensures rows[..Covered(width, |rows|, k)] + Bucket(width, rows, k) == rows[..Covered(width, |rows|, k + 1)]
  {
    StartBeforeEnd(width, |rows|, k);
  }

  ghost predicate InBuckets<T>(width: nat, rows: seq<T>, buckets: seq<seq<T>>) {
    && |buckets| == LISTS
    && forall b | 0 <= b < LISTS :: buckets[b] == Bucket(width, rows, b)
  }

  method FillBuckets<T>(width: nat, rows: seq<T>) returns (buckets: seq<seq<T>>)
    requires width > 0
    ensures InBuckets(width, rows, buckets)
  {
    buckets := [[], [], [], []];
    var idx := 0;
    while idx < |rows|
      invariant 0 <= idx <= |rows|
      invariant InBuckets(width, rows[..idx], buckets)
    {
      var bucket := idx / width;
      if bucket > 3 {
        bucket := 3;
      }
      OneMoreRow(width, rows, idx, buckets, bucket);
      buckets := buckets[bucket := buckets[bucket] + [rows[idx]]];
      idx := idx + 1;
    }
    assert rows[..idx] == rows;
  }

  lemma {:induction false} OneMoreRow<T>(width: nat, rows: seq<T>, idx: nat, buckets: seq<seq<T>>, bucket: nat)
    requires width > 0 && idx < |rows|
    requires InBuckets(width, rows[..idx], buckets)
    requires bucket == Min(idx / width, 3)
    ensures InBuckets(width, rows[..idx + 1], buckets[bucket := buckets[bucket] + [rows[idx]]])
  {
    forall b | 0 <= b < LISTS
      ensures b == bucket ==> Bucket(width, rows[..idx + 1], b) == buckets[b] + [rows[idx]]
      ensures b != bucket ==> Bucket(width, rows[..idx + 1], b) == buckets[b]
    {
      BucketGrows(width, rows, idx, b);
    }
  }

  /** Adding row idx extends the bucket the source computes for it and no other. */
  lemma {:induction false} BoundsGrow(width: nat, idx: nat, b: nat)
    requires width > 0 && b < LISTS
    ensures b == Min(idx / width, 3) ==>
              && Start(width, idx + 1, b) == Start(width, idx, b)
              && End(width, idx, b) == idx && End(width, idx + 1, b) == idx + 1
    ensures b < Min(idx / width, 3) ==>
              Start(width, idx + 1, b) == Start(width, idx, b) && End(width, idx + 1, b) == End(width, idx, b)
    ensures b > Min(idx / width, 3) ==>
              Start(width, idx, b) == End(width, idx, b) && Start(width, idx + 1, b) == End(width, idx + 1, b)
  {
    var q := idx / width;
    assert idx == q * width + idx % width;
    assert (b + 1) * width == b * width + width;
    assert (q + 1) * width == q * width + width;
    if b < q {
      Scale(b + 1, q, width);
    } else if q < b {
      Scale(q + 1, b, width);
    }
  }

  lemma {:induction false} BucketGrows<T>(width: nat, rows: seq<T>, idx: nat, b: nat)
    requires width > 0 && idx < |rows| && b < LISTS
    ensures b == Min(idx / width, 3) ==>
              Bucket(width, rows[..idx + 1], b) == Bucket(width, rows[..idx], b) + [rows[idx]]
    ensures b != Min(idx / width, 3) ==>
              Bucket(width, rows[..idx + 1], b) == Bucket(width, rows[..idx], b)
  {
    BoundsGrow(width, idx, b);
    StartBeforeEnd(width, idx, b);
    StartBeforeEnd(width, idx + 1, b);
  }

  // ---- columns

  function Column(kind: Kind, p: string, rows: seq<Row>): (c: Vec)
    ensures c.KindOf() == kind && c.Size() == |rows|
  {
    match kind
    case U8 => Bytes(seq(|rows|, i requires 0 <= i < |rows| => CastU8(NumberOf(rows[i], p))))
    case U16 => Words(seq(|rows|, i requires 0 <= i < |rows| => CastU16(NumberOf(rows[i], p))))
    case Text => Texts(seq(|rows|, i requires 0 <= i < |rows| => TextOf(rows[i], p)))
  }

  function Columns(kinds: map<string, Kind>, rows: seq<Row>): Object {
    map p | p in kinds :: Column(kinds[p], p, rows)
  }

  /** One `push_back` on the column of property p. */
  function Append(column: Vec, p: string, row: Row): Vec {
    match column
    case Bytes(b) => Bytes(b + [CastU8(NumberOf(row, p))])
    case Words(w) => Words(w + [CastU16(NumberOf(row, p))])
    case Texts(t) => Texts(t + [TextOf(row, p)])
  }

  method BuildColumns(kinds: map<string, Kind>, entries: seq<Row>) returns (list: Object)
    ensures list == Columns(kinds, entries)
  {
    list := map p | p in kinds :: match kinds[p] case U8 => Bytes([]) case U16 => Words([]) case Text => Texts([]);
    assert list == Columns(kinds, entries[..0]);
    for i := 0 to |entries|
      invariant list == Columns(kinds, entries[..i])
    {
      forall p | p in kinds
        ensures Append(list[p], p, entries[i]) == Column(kinds[p], p, entries[..i + 1])
      {
        ColumnGrows(kinds[p], p, entries, i);
      }
      list := map p | p in kinds :: Append(list[p], p, entries[i]);
    }
    assert entries[..|entries|] == entries;
  }

  lemma {:induction false} ColumnGrows(kind: Kind, p: string, rows: seq<Row>, i: nat)
    requires i < |rows|
    ensures Append(Column(kind, p, rows[..i]), p, rows[i]) == Column(kind, p, rows[..i + 1])
  {
    match kind
    case U8 =>
      assert Append(Column(kind, p, rows[..i]), p, rows[i]).bytes == Column(kind, p, rows[..i + 1]).bytes;
    case U16 =>
      assert Append(Column(kind, p, rows[..i]), p, rows[i]).words == Column(kind, p, rows[..i + 1]).words;
    case Text =>
      assert Append(Column(kind, p, rows[..i]), p, rows[i]).texts == Column(kind, p, rows[..i + 1]).texts;
  }

  // ---- publication

  /** The objects of the first k buckets; a bucket without rows has no object. */
  function PublishedUpTo(spec: TableSpec, rows: seq<Row>, k: nat): map<nat, Object>
    requires k <= LISTS
  {
    if k == 0 then map[]
    else
      var before, bucket := PublishedUpTo(spec, rows, k - 1), Bucket(spec.width, rows, k - 1);
      if bucket == [] then before else before[k - 1 := Columns(spec.kinds, bucket)]
  }

  /** The published objects by bucket number. */
  function Published(spec: TableSpec, rows: seq<Row>): map<nat, Object> {
    PublishedUpTo(spec, rows, LISTS)
  }

  method PublishTable(spec: TableSpec, rows: seq<Row>) returns (lists: map<nat, Object>)
    requires spec.width > 0
    ensures lists == Published(spec, rows)
  {
    var buckets := FillBuckets(spec.width, rows);
    lists := map[];
    for b := 0 to LISTS
      invariant lists == PublishedUpTo(spec, rows, b)
    {
      if buckets[b] == [] {
        continue;
      }
      var list := BuildColumns(spec.kinds, buckets[b]);
      lists := lists[b := list];
    }
  }

  /** The published objects are the columns of the buckets with rows. */
  lemma {:induction false} PublishedAt(spec: TableSpec, rows: seq<Row>)
    ensures forall b: nat :: b in Published(spec, rows) <==> b < LISTS && Bucket(spec.width, rows, b) != []
    ensures forall b: nat | b in Published(spec, rows) ::
              Published(spec, rows)[b] == Columns(spec.kinds, Bucket(spec.width, rows, b))
  {
    forall b: nat
      ensures b in Published(spec, rows) <==> b < LISTS && Bucket(spec.width, rows, b) != []
      ensures b in Published(spec, rows) ==>
                Published(spec, rows)[b] == Columns(spec.kinds, Bucket(spec.width, rows, b))
    {
      PublishedUpToAt(spec, rows, LISTS, b);
    }
  }

  lemma {:induction false} PublishedUpToAt(spec: TableSpec, rows: seq<Row>, k: nat, b: nat)
    requires k <= LISTS
    ensures b in PublishedUpTo(spec, rows, k) <==> b < k && Bucket(spec.width, rows, b) != []
    ensures b in PublishedUpTo(spec, rows, k) ==>
              PublishedUpTo(spec, rows, k)[b] == Columns(spec.kinds, Bucket(spec.width, rows, b))
  {
    if k > 0 {
      PublishedUpToAt(spec, rows, k - 1, b);
    }
  }

  /** The published lists are numbered without gaps. */
  lemma {:induction false} PublishedContiguous(spec: TableSpec, rows: seq<Row>)
    requires spec.width > 0
    ensures forall b: nat :: b in Published(spec, rows) <==> b < ListCount(spec.width, |rows|)
    ensures |Published(spec, rows)| == ListCount(spec.width, |rows|)
  {
    var g := ListCount(spec.width, |rows|);
    PublishedAt(spec, rows);
    forall b: nat | b < LISTS
      ensures b in Published(spec, rows) <==> b < g
    {
      BucketNonEmpty(spec.width, rows, b);
    }
    SegmentSize(Published(spec, rows).Keys, g);
  }

  lemma {:induction false} SegmentSize(keys: set<nat>, g: nat)
    requires forall b: nat :: b in keys <==> b < g
    ensures |keys| == g
  {
    if g == 0 {
      assert keys == {};
    } else {
      SegmentSize(keys - {g - 1}, g - 1);
    }
  }

  /** The list of row j and its place in that list. */
  lemma {:induction false} RowPlace(width: nat, n: nat, j: nat)
    requires width > 0 && j < n
    ensures var b := Min(j / width, 3);
            0 <= b * width <= j && Start(width, n, b) == b * width && j < End(width, n, b)
  {
    var q := j / width;
    assert j == q * width + j % width;
    var b := Min(q, 3);
    Scale(b, q, width);
    assert (b + 1) * width == b * width + width;
    if q < 3 {
      assert j < (q + 1) * width;
    }
  }

  /** Row j of the table is published in list j / width, or the last one, at the place that
      remains: there each column of numbers holds the row's value modulo 256 or 65536, and each
      column of texts the row's text. */
  lemma {:induction false} RowPublished(spec: TableSpec, rows: seq<Row>, j: nat, p: string)
    requires spec.width > 0 && j < |rows| && p in spec.kinds
    ensures var b := Min(j / spec.width, 3);
            && b in Published(spec, rows)
            && p in Published(spec, rows)[b]
            && 0 <= j - b * spec.width < Published(spec, rows)[b][p].Size()
            && HoldsAt(Published(spec, rows)[b][p], spec.kinds[p], j - b * spec.width, rows[j], p)
  {
    var b := Min(j / spec.width, 3);
    RowPlace(spec.width, |rows|, j);
    StartBeforeEnd(spec.width, |rows|, b);
    PublishedUpToAt(spec, rows, LISTS, b);
    assert Bucket(spec.width, rows, b)[j - b * spec.width] == rows[j];
  }

  predicate HoldsAt(column: Vec, kind: Kind, i: nat, row: Row, p: string)
    requires i < column.Size()
  {
    var number := if p in row && row[p].Num? then row[p].n else 0;
    match kind
    case U8 => column.Bytes? && column.bytes[i] == number % 0x100
    case U16 => column.Words? && column.words[i] == number % 0x1_0000
    case Text => column.Texts? && column.texts[i] == if p in row && row[p].Str? then row[p].s else ""
  }
}
