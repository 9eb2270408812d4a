/**
 * UnityCompactConverter, first half: the text is cut into one block per
 * object header, and each block not of an ignored class becomes a record
 * stored under its file id (ParseBlock).
 */
module UnityRecords {
  import opened Text
  import opened Wrappers
  import opened Dict
  import opened UnityText

  /**
   * UnityObject. Children hold the file ids of the child transforms: every
   * child is added after parsing ends, so the id names the same record the
   * source's reference points to.
   */
  datatype UnityObject = UnityObject(
    fileId: string,
    classId: string,
    name: string,
    gameObjectId: string,
    parentTransformId: string,
    componentIds: seq<string>,
    children: seq<string>,
    properties: Dict<string>)

  function NewObject(classId: string, fileId: string): (o: UnityObject)
    ensures Valid(o.properties)
  {
    UnityObject(fileId, classId, "", "", "", [], [], Empty())
  }

  /** The script field a line of a class-114 block records, if any. */
  function ScriptProperty(trimmed: string): (r: Option<(string, string)>)
    ensures r.Some? ==> !StartsWith(r.value.0, "m_") && r.value.0 != "serializedVersion"
  {
    var colon := IndexOf(trimmed, ':');
    if colon <= 0 then None
    else
      var key := Trim(trimmed[..colon]);
      var val := Trim(trimmed[colon + 1..]);
      if StartsWith(key, "m_") || key == "serializedVersion" then None
      else Some((key, val))
  }

  /** Which branch of ParseBlock's if-chain a trimmed line takes; the first prefix that fits wins. */
  datatype LineKind = NameLine | OwnerLine | FatherLine | ComponentListLine | ComponentLine | OtherLine

  function KindOf(t: string): LineKind {
    if StartsWith(t, "m_Name:") then NameLine
    else if StartsWith(t, "m_GameObject:") then OwnerLine
    else if StartsWith(t, "m_Father:") then FatherLine
    else if StartsWith(t, "m_Component:") then ComponentListLine
    else if StartsWith(t, "- component:") then ComponentLine
    else OtherLine
  }

  /** One trimmed line of ParseBlock's loop. */
  function ParseLine(o: UnityObject, t: string): (r: UnityObject)
    requires Valid(o.properties)
    ensures Valid(r.properties)
    ensures r.fileId == o.fileId && r.classId == o.classId && r.children == o.children
  {
    match KindOf(t)
    case NameLine => o.(name := GetValue(t))
    case OwnerLine => o.(gameObjectId := ExtractFileId(t))
    case FatherLine => o.(parentTransformId := ExtractFileId(t))
    case ComponentListLine => o
    case ComponentLine => o.(componentIds := o.componentIds + [ExtractFileId(t)])
    case OtherLine =>
      if o.classId == ScriptClass then
        match ScriptProperty(t)
        case Some((key, val)) => o.(properties := Put(o.properties, key, val))
        case None => o
      else o
  }

  /** The record after the given lines, each trimmed first. */
  function ParseLines(o: UnityObject, lines: seq<string>): (r: UnityObject)
    requires Valid(o.properties)
    ensures Valid(r.properties)
    ensures r.fileId == o.fileId && r.classId == o.classId && r.children == o.children
  {
    if lines == [] then o
    else ParseLine(ParseLines(o, lines[..|lines| - 1]), Trim(lines[|lines| - 1]))
  }

  /** The record ParseBlock builds from a block: lines split on '\r' and '\n', empty ones dropped. */
  function ParseRecord(classId: string, fileId: string, block: string): (r: UnityObject)
    ensures Valid(r.properties)
    ensures r.fileId == fileId && r.classId == classId && r.children == []
  {
    ParseLines(NewObject(classId, fileId), NonEmptyLines(block))
  }

  // ---------------------------------------------------------------------
  // What the fields hold

  /** The `- component:` references, in line order. */
  function ComponentRefs(lines: seq<string>): seq<string> {
    if lines == [] then []
    else
      var t := Trim(lines[|lines| - 1]);
      ComponentRefs(lines[..|lines| - 1]) + (if KindOf(t) == ComponentLine then [ExtractFileId(t)] else [])
  }

  /** The last trimmed line of the given kind. */
  function LastOfKind(lines: seq<string>, k: LineKind): Option<string> {
    if lines == [] then None
    else if KindOf(Trim(lines[|lines| - 1])) == k then Some(Trim(lines[|lines| - 1]))
    else LastOfKind(lines[..|lines| - 1], k)
  }

  /** A line starting with `- component:` is a component line: no earlier prefix fits it. */
  lemma ComponentLineKind(t: string)
    requires StartsWith(t, "- component:")
    ensures KindOf(t) == ComponentLine
  {
    assert t[0] == t[..12][0] == '-';
  }

  /** Component ids are every `- component:` reference, in line order, after those already there. */
  lemma {:induction false} ParseComponents(o: UnityObject, lines: seq<string>)
    requires Valid(o.properties)
    ensures ParseLines(o, lines).componentIds == o.componentIds + ComponentRefs(lines)
  {
    if lines != [] {
      var init := lines[..|lines| - 1];
      var t := Trim(lines[|lines| - 1]);
      ParseComponents(o, init);
      var p := ParseLines(o, init);
      assert ParseLines(o, lines) == ParseLine(p, t);
      if KindOf(t) == ComponentLine {
        assert ParseLine(p, t).componentIds == p.componentIds + [ExtractFileId(t)];
      } else {
        assert ParseLine(p, t).componentIds == p.componentIds;
      }
    }
  }

  /** The name is the value of the last `m_Name:` line, or stays as it was. */
  lemma {:induction false} ParseName(o: UnityObject, lines: seq<string>)
    requires Valid(o.properties)
    ensures ParseLines(o, lines).name ==
      match LastOfKind(lines, NameLine) case Some(t) => GetValue(t) case None => o.name
  {
    if lines != [] {
      var init := lines[..|lines| - 1];
      var t := Trim(lines[|lines| - 1]);
      ParseName(o, init);
      var p := ParseLines(o, init);
      assert ParseLines(o, lines) == ParseLine(p, t);
      if KindOf(t) == NameLine {
        assert ParseLine(p, t).name == GetValue(t);
      } else {
        assert ParseLine(p, t).name == p.name;
      }
    }
  }

  /** The owner is the reference in the last `m_GameObject:` line. */
  lemma {:induction false} ParseOwner(o: UnityObject, lines: seq<string>)
    requires Valid(o.properties)
    ensures ParseLines(o, lines).gameObjectId ==
      match LastOfKind(lines, OwnerLine) case Some(t) => ExtractFileId(t) case None => o.gameObjectId
  {
    if lines != [] {
      var init := lines[..|lines| - 1];
      var t := Trim(lines[|lines| - 1]);
      ParseOwner(o, init);
      var p := ParseLines(o, init);
      assert ParseLines(o, lines) == ParseLine(p, t);
      if KindOf(t) == OwnerLine {
        assert ParseLine(p, t).gameObjectId == ExtractFileId(t);
      } else {
        assert ParseLine(p, t).gameObjectId == p.gameObjectId;
      }
    }
  }

  /** The parent is the reference in the last `m_Father:` line. */
  lemma {:induction false} ParseParent(o: UnityObject, lines: seq<string>)
    requires Valid(o.properties)
    ensures ParseLines(o, lines).parentTransformId ==
      match LastOfKind(lines, FatherLine) case Some(t) => ExtractFileId(t) case None => o.parentTransformId
  {
    if lines != [] {
      var init := lines[..|lines| - 1];
      var t := Trim(lines[|lines| - 1]);
      ParseParent(o, init);
      var p := ParseLines(o, init);
      assert ParseLines(o, lines) == ParseLine(p, t);
      if KindOf(t) == FatherLine {
        assert ParseLine(p, t).parentTransformId == ExtractFileId(t);
      } else {
        assert ParseLine(p, t).parentTransformId == p.parentTransformId;
      }
    }
  }

  /** Recorded script fields never start with `m_`, are never serializedVersion, and exist only for class 114. */
  lemma {:induction false} ParseProperties(o: UnityObject, lines: seq<string>)
    requires Valid(o.properties)
    requires forall k :: k in o.properties.values ==> !StartsWith(k, "m_") && k != "serializedVersion"
    ensures forall k :: k in ParseLines(o, lines).properties.values ==>
      !StartsWith(k, "m_") && k != "serializedVersion"
    ensures o.classId != ScriptClass ==> ParseLines(o, lines).properties == o.properties
  {
    if lines != [] {
      var init := lines[..|lines| - 1];
      ParseProperties(o, init);
      ParseLineProperties(ParseLines(o, init), Trim(lines[|lines| - 1]));
    }
  }

  lemma ParseLineProperties(o: UnityObject, t: string)
    requires Valid(o.properties)
    ensures forall k :: k in ParseLine(o, t).properties.values ==>
      k in o.properties.values || (ScriptProperty(t).Some? && k == ScriptProperty(t).value.0)
    ensures o.classId != ScriptClass ==> ParseLine(o, t).properties == o.properties
  {
    var r := ParseLine(o, t);
    if KindOf(t) == OtherLine && o.classId == ScriptClass && ScriptProperty(t).Some? {
      var (key, val) := ScriptProperty(t).value;
      assert r.properties.values == o.properties.values[key := val];
    } else {
      assert r.properties == o.properties;
    }
  }

  // ---------------------------------------------------------------------
  // Blocks and the record store

  /** Where block i ends: at the next header, or at the end of the text. */
  function BlockEnd(s: string, i: nat): (e: nat)
    requires i < |Headers(s)|
    ensures Headers(s)[i].index < e <= |s|
  {
    var hs := Headers(s);
    if i == |hs| - 1 then |s| else hs[i + 1].index
  }

  /** Block i: from its header to the next header, or to the end of the text. */
  function Block(s: string, i: nat): string
    requires i < |Headers(s)|
  {
    s[Headers(s)[i].index..BlockEnd(s, i)]
  }

  /** The store: a record under each key, knowing its own file id, with a valid property table. */
  ghost predicate StoreValid(objs: Dict<UnityObject>) {
    Valid(objs) &&
    forall k :: k in objs.values ==> Valid(objs.values[k].properties) && objs.values[k].fileId == k
  }

  /** ParseBlock's effect on the store: ignored classes leave it alone, others overwrite their key. */
  function Store(objs: Dict<UnityObject>, classId: string, fileId: string, block: string): (r: Dict<UnityObject>)
    requires StoreValid(objs)
    ensures StoreValid(r)
  {
    if IsIgnoredClass(classId) then objs
    else Put(objs, fileId, ParseRecord(classId, fileId, block))
  }

  /** A header's groups and the block it starts. */
  datatype Piece = Piece(classId: string, fileId: string, block: string)

  /** The pieces of the text, one per header match, in text order. */
  function Pieces(s: string): (ps: seq<Piece>)
    ensures |ps| == |Headers(s)|
  {
    var hs := Headers(s);
    seq(|hs|, i requires 0 <= i < |hs| => Piece(hs[i].classId, hs[i].fileId, Block(s, i)))
  }

  /** The store after the given pieces, in order. */
  function StoreAll(ps: seq<Piece>): (r: Dict<UnityObject>)
    ensures StoreValid(r)
  {
    if ps == [] then Empty()
    else
      var p := ps[|ps| - 1];
      Store(StoreAll(ps[..|ps| - 1]), p.classId, p.fileId, p.block)
  }

  /** Pass i of the block loop: the block of header i, from its index to the next header's or the end, is stored. */
  lemma ParsePass(s: string, i: nat)
    requires i < |Headers(s)|
    ensures var hs := Headers(s);
      var next := if i == |hs| - 1 then |s| else hs[i + 1].index;
      hs[i].index < next <= |s| &&
      StoreAll(Pieces(s)[..i + 1]) == Store(StoreAll(Pieces(s)[..i]), hs[i].classId, hs[i].fileId, s[hs[i].index..next])
  {
    var ps := Pieces(s);
    assert ps[..i + 1][..i] == ps[..i];
  }

  /** Some piece of a class that is not ignored has file id k. */
  ghost predicate KeptId(ps: seq<Piece>, k: string) {
    exists i :: 0 <= i < |ps| && ps[i].fileId == k && !IsIgnoredClass(ps[i].classId)
  }

  lemma KeptIdSnoc(ps: seq<Piece>, k: string)
    requires ps != []
    ensures var p := ps[|ps| - 1];
      KeptId(ps, k) <==> KeptId(ps[..|ps| - 1], k) || (p.fileId == k && !IsIgnoredClass(p.classId))
  {
    var init := ps[..|ps| - 1];
    if KeptId(init, k) {
      var i :| 0 <= i < |init| && init[i].fileId == k && !IsIgnoredClass(init[i].classId);
      assert ps[i] == init[i];
    }
    if KeptId(ps, k) {
      var i :| 0 <= i < |ps| && ps[i].fileId == k && !IsIgnoredClass(ps[i].classId);
      if i < |init| {
        assert init[i] == ps[i];
      }
    }
  }

  /** Stored keys are exactly the file ids of the pieces whose class is not ignored. */
  lemma {:induction false} StoredKeys(ps: seq<Piece>)
    ensures forall k :: k in StoreAll(ps).values <==> KeptId(ps, k)
  {
    if ps != [] {
      StoredKeys(ps[..|ps| - 1]);
      forall k ensures k in StoreAll(ps).values <==> KeptId(ps, k) {
        KeptIdSnoc(ps, k);
      }
    }
  }

  /** A later piece with the same file id replaces the earlier record. */
  lemma {:induction false} LastDuplicateWins(ps: seq<Piece>, i: nat)
    requires i < |ps| && !IsIgnoredClass(ps[i].classId)
    requires forall j :: i < j < |ps| && ps[j].fileId == ps[i].fileId ==> IsIgnoredClass(ps[j].classId)
    ensures ps[i].fileId in StoreAll(ps).values
    ensures StoreAll(ps).values[ps[i].fileId] == ParseRecord(ps[i].classId, ps[i].fileId, ps[i].block)
  {
    var init := ps[..|ps| - 1];
    if i < |ps| - 1 {
      assert init[i] == ps[i];
      LastDuplicateWins(init, i);
    }
  }

  /** All pieces of ignored classes: nothing is stored. */
  lemma {:induction false} AllIgnoredStoresNothing(ps: seq<Piece>)
    requires forall i :: 0 <= i < |ps| ==> IsIgnoredClass(ps[i].classId)
    ensures StoreAll(ps) == Empty() && Count(StoreAll(ps)) == 0
  {
    if ps != [] {
      var init := ps[..|ps| - 1];
      assert forall i :: 0 <= i < |init| ==> init[i] == ps[i];
      AllIgnoredStoresNothing(init);
    }
  }
}
