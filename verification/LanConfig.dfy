/** The shared LAN configuration file: its one writer and its readers. */
module LanConfig {
  import opened Types
  import opened Json

  const INTERFACES := "Interfaces"
  const CONFIG := "Config"

  /** `contains(key)`. */
  predicate Has(j: Json, key: string) {
    j.Obj? && key in j.members
  }

  /** The file wraps its interfaces in one object. */
  predicate Wrapped(data: Json) {
    Has(data, INTERFACES) && data.members[INTERFACES].Obj?
  }

  // ---- the writer

  /** `std::getline` with '/' as the delimiter: no segment for empty text or after a final '/'. */
  function Segments(s: string): seq<string> {
    if s == [] then [] else
      var i := SlashAt(s, 0);
      if i == |s| then [s] else [s[..i]] + Segments(s[i + 1..])
  }

  function SlashAt(s: string, i: nat): (k: nat)
    requires i <= |s|
    ensures i <= k <= |s|
    decreases |s| - i
  {
    if i == |s| || s[i] == '/' then i else SlashAt(s, i + 1)
  }

  lemma {:induction false} SlashAtMeaning(s: string, i: nat)
    requires i <= |s|
    ensures forall j | i <= j < SlashAt(s, i) :: s[j] != '/'
    ensures SlashAt(s, i) < |s| ==> s[SlashAt(s, i)] == '/'
    decreases |s| - i
  {
    if i < |s| && s[i] != '/' {
      SlashAtMeaning(s, i + 1);
    }
  }

  /** The segments with '/' between them. */
  function Joined(segments: seq<string>): string {
    if segments == [] then "" else if |segments| == 1 then segments[0] else segments[0] + "/" + Joined(segments[1..])
  }

  /** The segments are free of '/' and, joined again, are the text without a final '/'. */
  lemma {:induction false} SegmentsMeaning(s: string)
    ensures forall k | 0 <= k < |Segments(s)| :: '/' !in Segments(s)[k]
    ensures s == Joined(Segments(s)) + if Trailing(s) then "/" else ""
    ensures Segments(s) == [] <==> s == ""
    decreases |s|
  {
    if s != "" {
      var i := SlashAt(s, 0);
      SlashAtMeaning(s, 0);
      assert '/' !in s[..i];
      if i < |s| {
        SegmentsMeaning(s[i + 1..]);
        JoinFirst(s, i);
      } else {
        assert s[..i] == s && Segments(s) == [s];
      }
    }
  }

  predicate Trailing(s: string) {
    s != "" && s[|s| - 1] == '/'
  }

  lemma {:induction false} JoinFirst(s: string, i: nat)
    requires i < |s| && s[i] == '/' && i == SlashAt(s, 0)
    requires s[i + 1..] == Joined(Segments(s[i + 1..])) + if Trailing(s[i + 1..]) then "/" else ""
    requires Segments(s[i + 1..]) == [] <==> s[i + 1..] == ""
    ensures Segments(s) == [s[..i]] + Segments(s[i + 1..])
    ensures s == Joined(Segments(s)) + if Trailing(s) then "/" else ""
  {
    var first, rest := s[..i], Segments(s[i + 1..]);
    assert s == first + "/" + s[i + 1..];
    assert Segments(s) == [first] + rest && ([first] + rest)[1..] == rest;
    if s[i + 1..] == "" {
      assert Joined([first]) == first && Trailing(s);
    } else {
      assert Trailing(s) == Trailing(s[i + 1..]);
      assert Joined([first] + rest) == first + "/" + Joined(rest);
    }
  }

  method Split(s: string) returns (segments: seq<string>)
    ensures segments == Segments(s)
  {
    segments := [];
    var rest := s;
    while rest != []
      invariant Segments(s) == segments + Segments(rest)
      decreases |rest|
    {
      var end := FindSlash(rest);
      ghost var before := segments;
      segments := segments + [rest[..end]];
      if end == |rest| {
        assert rest[..end] == rest && Segments(rest) == [rest];
        rest := [];
      } else {
        assert Segments(rest) == [rest[..end]] + Segments(rest[end + 1..]);
        rest := rest[end + 1..];
        assert segments + Segments(rest) == before + ([segments[|before|]] + Segments(rest));
      }
    }
  }

  method FindSlash(s: string) returns (end: nat)
    ensures end == SlashAt(s, 0) <= |s|
  {
    end := 0;
    while end < |s| && s[end] != '/'
      invariant 0 <= end <= |s|
      invariant SlashAt(s, 0) == SlashAt(s, end)
    {
      end := end + 1;
    }
  }

  /** The keys below an interface that a property is stored under. */
  function PropertyPath(selectorPath: Option<string>, propName: string): seq<string> {
    [CONFIG] + (if selectorPath.Some? then Segments(selectorPath.value) else []) + [propName]
  }

  function WritePath(data: Json, interfaceName: string, path: seq<string>): seq<string> {
    (if Wrapped(data) then [INTERFACES] else []) + [interfaceName] + path
  }

  /** The text of the file as parsed; a missing or unreadable file counts as an empty object. */
  function Loaded(file: Option<Json>): Json {
    if file.Some? then file.value else Obj(map[])
  }

  /** None is the type error thrown when something on the path is not an object. */
  method UpdateLanParamConfigValue(file: Option<Json>, interfaceName: string, propName: string, value: Json,
      selectorPath: Option<string>)
    returns (saved: Option<Json>)
    ensures var path := WritePath(Loaded(file), interfaceName, PropertyPath(selectorPath, propName));
            saved == Put(Loaded(file), path, value)
  {
    var data := Obj(map[]);
    if file.Some? {
      data := file.value;
    }
    var container: seq<string> := [];
    if Wrapped(data) {
      container := [INTERFACES];
    }
    var cursor := [CONFIG];
    if selectorPath.Some? {
      var segments := Split(selectorPath.value);
      cursor := cursor + segments;
    }
    cursor := cursor + [propName];
    assert cursor == PropertyPath(selectorPath, propName);
    saved := Put(data, container + [interfaceName] + cursor, value);
  }

  // ---- the readers

  /** What dispatchTestDestination and getManagers use as the interface's data. */
  function DirectData(data: Json, iface: string): Option<Json> {
    if Wrapped(data) && Has(data.members[INTERFACES], iface) then Some(data.members[INTERFACES].members[iface])
    else if Has(data, iface) then Some(data.members[iface])
    else None
  }

  /** What publication uses: the wrapping object, or else the file's own object, and the
      interface's legacy file when that has no entry for it. */
  function PublishedData(data: Json, iface: string, legacy: Option<Json>): Option<Json> {
    if Wrapped(data) then
      if Has(data.members[INTERFACES], iface) then Some(data.members[INTERFACES].members[iface]) else legacy
    else if Has(data, iface) then Some(data.members[iface]) else legacy
  }

  lemma {:induction false} GetStep(j: Json, key: string, rest: seq<string>)
    ensures Get(j, [key] + rest) == if Has(j, key) then Get(j.members[key], rest) else None
  {
    assert ([key] + rest)[1..] == rest;
  }

  /** In terms of paths: the wrapped entry when there is one, else the one at the top; and for
      publication the place the layout decides, else the legacy file. */
  lemma {:induction false} ReadersMeaning(data: Json, iface: string, legacy: Option<Json>)
    ensures DirectData(data, iface)
            == if Get(data, ["Interfaces", iface]).Some? then Get(data, ["Interfaces", iface]) else Get(data, [iface])
    ensures var wrapper := Get(data, ["Interfaces"]);
            var own := if wrapper.Some? && wrapper.value.Obj? then Get(data, ["Interfaces", iface])
                       else Get(data, [iface]);
            PublishedData(data, iface, legacy) == if own.Some? then own else legacy
  {
    assert ["Interfaces"] + [] == ["Interfaces"] && [iface] + [] == [iface];
    assert ["Interfaces"] + [iface] == ["Interfaces", iface];
    GetStep(data, "Interfaces", []);
    GetStep(data, "Interfaces", [iface]);
    GetStep(data, iface, []);
    if Has(data, "Interfaces") {
      GetStep(data.members["Interfaces"], iface, []);
    }
  }

  /** Reading a path of keys from an interface's data. */
  function Read(lanData: Option<Json>, path: seq<string>): Option<Json> {
    if lanData.Some? then Get(lanData.value, path) else None
  }

  /** The interface is only outside the wrapping object. */
  predicate Mixed(data: Json, iface: string) {
    Wrapped(data) && !Has(data.members[INTERFACES], iface) && Has(data, iface)
  }

  /** The interface has no entry where publication looks for it. */
  predicate Unlisted(data: Json, iface: string) {
    if Wrapped(data) then !Has(data.members[INTERFACES], iface) else !Has(data, iface)
  }

  lemma {:induction false} WriteShape(data: Json, iface: string, path: seq<string>, value: Json)
    requires iface != INTERFACES
    requires Put(data, WritePath(data, iface, path), value).Some?
    ensures var saved := Put(data, WritePath(data, iface, path), value).value;
            && Wrapped(saved) == Wrapped(data)
            && saved.Obj?
            && (forall other | other != iface && other != INTERFACES :: Has(saved, other) == Has(data, other)
                                              && (Has(data, other) ==> saved.members[other] == data.members[other]))
  {
    var full := WritePath(data, iface, path);
    assert full != [] && full[0] == if Wrapped(data) then INTERFACES else iface;
  }

  /** After a write both kinds of reader see the value at its path. */
  lemma {:induction false} ReadersSeeWrite(data: Json, iface: string, path: seq<string>, value: Json,
      legacy: Option<Json>)
    requires iface != INTERFACES
    requires Put(data, WritePath(data, iface, path), value).Some?
    ensures var saved := Put(data, WritePath(data, iface, path), value).value;
            && Read(DirectData(saved, iface), path) == Some(value)
            && Read(PublishedData(saved, iface, legacy), path) == Some(value)
  {
    InterfaceAfter(data, iface, path, value);
    var before := if InterfaceBefore(data, iface).Some? then InterfaceBefore(data, iface).value else Null;
    PutThenGet(before, path, value);
  }

  /** The interface's data at the place the writer uses, before the write. */
  function InterfaceBefore(data: Json, iface: string): Option<Json> {
    if Wrapped(data) then
      if Has(data.members[INTERFACES], iface) then Some(data.members[INTERFACES].members[iface]) else None
    else if Has(data, iface) then Some(data.members[iface]) else None
  }

  /** The write happens inside the interface's own data. */
  lemma {:induction false} InterfaceAfter(data: Json, iface: string, path: seq<string>, value: Json)
    requires iface != INTERFACES
    requires Put(data, WritePath(data, iface, path), value).Some?
    ensures var saved := Put(data, WritePath(data, iface, path), value).value;
            var before := if InterfaceBefore(data, iface).Some? then InterfaceBefore(data, iface).value else Null;
            && Put(before, path, value).Some?
            && DirectData(saved, iface) == Some(Put(before, path, value).value)
            && (forall legacy :: PublishedData(saved, iface, legacy) == Some(Put(before, path, value).value))
  {
    var full := WritePath(data, iface, path);
    WriteShape(data, iface, path, value);
    if Wrapped(data) {
      assert full == [INTERFACES] + ([iface] + path);
      assert full[1..] == [iface] + path;
      assert full[1..][1..] == path;
    } else {
      assert full == [iface] + path;
      assert full[1..] == path;
    }
  }

  /** Other interfaces keep all their data, for both kinds of reader. */
  lemma {:induction false} OtherInterfaces(data: Json, iface: string, path: seq<string>, value: Json, other: string,
      legacy: Option<Json>)
    requires iface != INTERFACES && other != INTERFACES && other != iface
    requires Put(data, WritePath(data, iface, path), value).Some?
    ensures var saved := Put(data, WritePath(data, iface, path), value).value;
            && DirectData(saved, other) == DirectData(data, other)
            && PublishedData(saved, other, legacy) == PublishedData(data, other, legacy)
  {
    var full := WritePath(data, iface, path);
    WriteShape(data, iface, path, value);
    if Wrapped(data) {
      assert full == [INTERFACES] + ([iface] + path);
      assert full[1..] == [iface] + path;
    }
  }

  /** Any other path of the same interface: it reads as before, except that the first write of
      an interface hides what the readers took from elsewhere until then: the entry beside the
      wrapping object, and the legacy file. */
  lemma {:induction false} OtherPaths(data: Json, iface: string, path: seq<string>, value: Json, rest: seq<string>,
      legacy: Option<Json>)
    requires iface != INTERFACES && Diverge(path, rest)
    requires Put(data, WritePath(data, iface, path), value).Some?
    ensures var saved := Put(data, WritePath(data, iface, path), value).value;
            && Read(DirectData(saved, iface), rest)
               == (if Mixed(data, iface) then None else Read(DirectData(data, iface), rest))
            && Read(PublishedData(saved, iface, legacy), rest)
               == (if Unlisted(data, iface) then None else Read(PublishedData(data, iface, legacy), rest))
  {
    var before := if InterfaceBefore(data, iface).Some? then InterfaceBefore(data, iface).value else Null;
    InterfaceAfter(data, iface, path, value);
    PutFrame(before, path, value, rest);
    assert rest != [];
  }

  /** Hence a write keeps every other path of the interface, for both kinds of reader, exactly
      when nothing was to be read there from the entry beside the wrapping object or, for
      publication, from the legacy file of an interface without an entry. */
  lemma {:induction false} OtherPathsKept(data: Json, iface: string, path: seq<string>, value: Json,
      rest: seq<string>, legacy: Option<Json>)
    requires iface != INTERFACES && Diverge(path, rest)
    requires Put(data, WritePath(data, iface, path), value).Some?
    ensures var saved := Put(data, WritePath(data, iface, path), value).value;
            && (Read(DirectData(saved, iface), rest) == Read(DirectData(data, iface), rest)
                <==> !(Mixed(data, iface) && Get(data.members[iface], rest).Some?))
            && (Read(PublishedData(saved, iface, legacy), rest) == Read(PublishedData(data, iface, legacy), rest)
                <==> !(Unlisted(data, iface) && legacy.Some? && Get(legacy.value, rest).Some?))
  {
    OtherPaths(data, iface, path, value, rest, legacy);
  }

  /** A write without a selector diverges from every other property and from every selector
      path that does not start with the property's own name. */
  lemma {:induction false} PropertiesDiverge(prop: string, other: seq<string>)
    requires other != [] && other[0] != prop
    ensures Diverge(PropertyPath(None, prop), [CONFIG] + other)
  {
    var p, q := PropertyPath(None, prop), [CONFIG] + other;
    assert p[1] == prop && q[1] == other[0];
  }
}
