/** JSON documents, merge patch (RFC 7396, section 2) and access by key path. */
module Json {
  import opened Types

  datatype Json =
    | Null
    | Bool(b: bool)
    | Num(n: int)
    | Str(s: string)
    | Arr(elems: seq<Json>)
    | Obj(members: map<string, Json>)

  /** `target.merge_patch(patch)`. */
  function MergePatch(target: Json, patch: Json): Json
    decreases patch
  {
    match patch
    case Obj(m) =>
      var base := if target.Obj? then target.members else map[];
      Obj(map k | k in base.Keys + m.Keys && !(k in m && m[k].Null?) ::
            if k in m then MergePatch(if k in base then base[k] else Null, m[k]) else base[k])
    case _ => patch
  }

  /** The document without its null members, at every depth of nested objects. Arrays are
      kept whole, with whatever nulls they hold. */
  function StripNulls(j: Json): Json {
    match j
    case Obj(m) => Obj(map k | k in m && !m[k].Null? :: StripNulls(m[k]))
    case _ => j
  }

  /** No object outside an array has a null member. */
  ghost predicate NullFree(j: Json) {
    j.Obj? ==> forall k | k in j.members :: !j.members[k].Null? && NullFree(j.members[k])
  }

  /** Patching anything but an object gives the patch without its null members. */
  lemma {:induction false} MergeIntoNonObject(target: Json, patch: Json)
    requires !target.Obj?
    ensures MergePatch(target, patch) == StripNulls(patch)
    decreases patch
  {
    if patch.Obj? {
      var m := patch.members;
      forall k | k in m && !m[k].Null?
        ensures MergePatch(Null, m[k]) == StripNulls(m[k])
      {
        MergeIntoNonObject(Null, m[k]);
      }
    }
  }

  lemma {:induction false} StripNullsResult(j: Json)
    requires !j.Null?
    ensures !StripNulls(j).Null? && NullFree(StripNulls(j))
  {
    if j.Obj? {
      forall k | k in j.members && !j.members[k].Null?
        ensures !StripNulls(j.members[k]).Null? && NullFree(StripNulls(j.members[k]))
      {
        StripNullsResult(j.members[k]);
      }
    }
  }

  /** Saving through a patch onto an array keeps the document just when it has no null member. */
  lemma {:induction false} MergeKeepsDocument(target: Json, doc: Json)
    requires !target.Obj? && !doc.Null?
    ensures MergePatch(target, doc) == doc <==> NullFree(doc)
  {
    MergeIntoNonObject(target, doc);
    StripNullsResult(doc);
    if NullFree(doc) {
      StripNullFree(doc);
    }
  }

  lemma {:induction false} StripNullFree(j: Json)
    requires NullFree(j)
    ensures StripNulls(j) == j
  {
    if j.Obj? {
      forall k | k in j.members
        ensures StripNulls(j.members[k]) == j.members[k]
      {
        StripNullFree(j.members[k]);
      }
      assert StripNulls(j).members == j.members;
    }
  }

  // ---- access by path

  /** Removing null members keeps every other value that is no object where it was, at every
      depth, and adds none. */
  lemma {:induction false} StripNullsReads(j: Json, path: seq<string>, leaf: Json)
    requires !leaf.Null? && !leaf.Obj?
    ensures Get(StripNulls(j), path) == Some(leaf) <==> Get(j, path) == Some(leaf)
    decreases |path|
  {
    if path != [] && j.Obj? && path[0] in j.members {
      var child := j.members[path[0]];
      StripNullsReads(child, path[1..], leaf);
      if child.Null? {
        assert path[1..] == [] ==> Get(child, path[1..]) == Some(Null);
      } else {
        assert StripNulls(j).members[path[0]] == StripNulls(child);
      }
    }
  }

  /** Reading along a path of object keys; None when a key is missing or a step is not an object. */
  function Get(j: Json, path: seq<string>): Option<Json> {
    if path == [] then Some(j)
    else if j.Obj? && path[0] in j.members then Get(j.members[path[0]], path[1..])
    else None
  }

  /** `j[p0][p1]... = v`: a null on the way becomes an object; None is the type error thrown
      when anything else that is not an object is on the way. */
  function Put(j: Json, path: seq<string>, v: Json): Option<Json>
    decreases |path|
  {
    if path == [] then Some(v)
    else if j.Null? || j.Obj? then
      var m := if j.Obj? then j.members else map[];
      var child := Put(if path[0] in m then m[path[0]] else Null, path[1..], v);
      if child.Some? then Some(Obj(m[path[0] := child.value])) else None
    else None
  }

  /** Neither path leads through the other. */
  predicate Diverge(p: seq<string>, q: seq<string>) {
    !(p <= q) && !(q <= p)
  }

  lemma {:induction false} PutThenGet(j: Json, path: seq<string>, v: Json)
    requires Put(j, path, v).Some?
    ensures Get(Put(j, path, v).value, path) == Some(v)
    decreases |path|
  {
    if path != [] {
      var m := if j.Obj? then j.members else map[];
      PutThenGet(if path[0] in m then m[path[0]] else Null, path[1..], v);
    }
  }

  /** What lies below the written path is what lies below the written value. */
  lemma {:induction false} PutThenGetBelow(j: Json, path: seq<string>, rest: seq<string>, v: Json)
    requires Put(j, path, v).Some?
    ensures Get(Put(j, path, v).value, path + rest) == Get(v, rest)
    decreases |path|
  {
    if path == [] {
      assert path + rest == rest;
    } else {
      var m := if j.Obj? then j.members else map[];
      PutThenGetBelow(if path[0] in m then m[path[0]] else Null, path[1..], rest, v);
      assert (path + rest)[1..] == path[1..] + rest;
    }
  }

  lemma {:induction false} PutFrame(j: Json, path: seq<string>, v: Json, other: seq<string>)
    requires Put(j, path, v).Some?
    requires Diverge(path, other)
    ensures Get(Put(j, path, v).value, other) == Get(j, other)
    decreases |path|
  {
    assert path != [] && other != [];
    var m := if j.Obj? then j.members else map[];
    if path[0] == other[0] {
      var child := if path[0] in m then m[path[0]] else Null;
      TailsDiverge(path, other);
      PutFrame(child, path[1..], v, other[1..]);
      if path[0] !in m {
        assert Get(Null, other[1..]) == None by { assert other[1..] != []; }
      }
    }
  }

  lemma {:induction false} TailsDiverge(p: seq<string>, q: seq<string>)
    requires p != [] && q != [] && p[0] == q[0] && Diverge(p, q)
    ensures Diverge(p[1..], q[1..]) && p[1..] != [] && q[1..] != []
  {
    assert p == [p[0]] + p[1..] && q == [q[0]] + q[1..];
  }
}
