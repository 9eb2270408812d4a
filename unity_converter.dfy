/**
 * The UnityCompactConverter object: a record store and an output buffer,
 * filled by ParseBlock, the linking loop and PrintTree. Each method is
 * proved against the functions of UnityRecords and UnityTree, so that a
 * whole run equals Converted.
 */
module UnityConverter {
  import opened Text
  import opened Wrappers
  import opened Dict
  import opened UnityText
  import opened UnityRecords
  import opened UnityTree

  class UnityCompactConverter {
    /** _objects: records by file id, in first-insertion order. */
    var objects: Dict<UnityObject>
    /** _output: the StringBuilder, as the lines appended to it so far; its text is Concat(output). */
    var output: seq<string>

    constructor ()
      ensures objects == Empty() && output == []
    {
      objects := Empty();
      output := [];
    }

    /** UnityCompactConverter.Convert: a fresh converter processes the text. */
    static method Convert(content: string) returns (r: string)
      ensures r == Converted(content)
    {
      var converter := new UnityCompactConverter();
      r := converter.Process(content);
    }

    /** Process: blocks into records, records into a tree, the tree into text. */
    method Process(content: string) returns (r: string)
      requires objects == Empty() && output == []
      modifies this
      ensures r == Converted(content)
    {
      var matches := Headers(content);
      if |matches| == 0 {
        return content;
      }
      ParseAll(content, matches);
      ghost var parsed := objects;
      ParsedHaveNoChildren(Pieces(content));
      var roots := LinkTransforms();
      if |roots| == 0 {
        return Summary(Count(objects));
      }
      WithChildrenSkeleton(parsed, parsed.keys);
      WithChildrenLinks(parsed);
      RootsSame(parsed, objects, parsed.keys);
      PrintRoots(roots);
      assert output == ForestLines(objects, [], Kids(objects, []));
      r := Trim(Concat(output));
    }

    /** The block loop of Process: block i runs from header i to the next header or the end. */
    method ParseAll(content: string, matches: seq<Header>)
      requires matches == Headers(content) && objects == Empty()
      modifies this`objects
      ensures objects == StoreAll(Pieces(content))
    {
      ghost var ps := Pieces(content);
      var i := 0;
      while i < |matches|
        invariant 0 <= i <= |matches|
        invariant objects == StoreAll(ps[..i])
      {
        ParsePass(content, i);
        var header := matches[i];
        var nextIndex := if i == |matches| - 1 then |content| else matches[i + 1].index;
        var blockContent := content[header.index..nextIndex];
        ParseBlock(header.classId, header.fileId, blockContent);
        i := i + 1;
      }
      assert ps[..i] == ps;
    }

    /** ParseBlock: a block of an ignored class is dropped; any other becomes the record under its file id. */
    method ParseBlock(classId: string, fileId: string, content: string)
      requires StoreValid(objects)
      modifies this`objects
      ensures objects == Store(old(objects), classId, fileId, content)
    {
      if IsIgnoredClass(classId) {
        return;
      }
      var obj := NewObject(classId, fileId);
      var lines := NonEmptyLines(content);
      for j := 0 to |lines|
        invariant objects == old(objects)
        invariant obj == ParseLines(NewObject(classId, fileId), lines[..j])
      {
        assert lines[..j + 1][..j] == lines[..j];
        obj := ParseInto(obj, Trim(lines[j]));
      }
      assert lines[..|lines|] == lines;
      objects := Put(objects, fileId, obj);
    }

    /** The body of ParseBlock's loop: the first prefix that fits decides what the line sets. */
    static method ParseInto(obj: UnityObject, trimmed: string) returns (r: UnityObject)
      requires Valid(obj.properties)
      ensures r == ParseLine(obj, trimmed)
    {
      r := obj;
      if StartsWith(trimmed, "m_Name:") {
        r := r.(name := GetValue(trimmed));
      } else if StartsWith(trimmed, "m_GameObject:") {
        r := r.(gameObjectId := ExtractFileId(trimmed));
      } else if StartsWith(trimmed, "m_Father:") {
        r := r.(parentTransformId := ExtractFileId(trimmed));
      } else if StartsWith(trimmed, "m_Component:") {
        return;
      } else if StartsWith(trimmed, "- component:") {
        r := r.(componentIds := r.componentIds + [ExtractFileId(trimmed)]);
      } else if obj.classId == ScriptClass {
        var colon := IndexOf(trimmed, ':');
        if colon > 0 {
          var key := Trim(trimmed[..colon]);
          var val := Trim(trimmed[colon + 1..]);
          if !StartsWith(key, "m_") && key != "serializedVersion" {
            r := r.(properties := Put(r.properties, key, val));
          }
        }
      }
    }

    /**
     * The linking loop of Process: over the records in store order, root
     * transforms are collected and every other transform joins its
     * parent's children when the parent id resolves.
     */
    method LinkTransforms() returns (roots: seq<string>)
      requires StoreValid(objects)
      modifies this`objects
      ensures objects == WithChildren(old(objects), old(objects).keys)
      ensures roots == RootsIn(old(objects), old(objects).keys)
    {
      ghost var parsed := objects;
      var keys := objects.keys;
      roots := [];
      WithChildrenNone(parsed);
      var i := 0;
      while i < |keys|
        invariant 0 <= i <= |keys|
        invariant objects == WithChildren(parsed, keys[..i])
        invariant roots == RootsIn(parsed, keys[..i])
      {
        LinkPass(parsed, i);
        var obj := objects.values[keys[i]];
        if IsTransformClass(obj.classId) {
          if obj.parentTransformId == "" || obj.parentTransformId == "0" {
            roots := roots + [obj.fileId];
          } else if obj.parentTransformId in objects.values {
            var parent := objects.values[obj.parentTransformId];
            objects := Put(objects, obj.parentTransformId, parent.(children := parent.children + [obj.fileId]));
          }
        }
        i := i + 1;
      }
      assert keys[..i] == keys;
    }

    /** The printing loop of Process: each root's subtree, in order. */
    method PrintRoots(roots: seq<string>)
      requires StoreValid(objects) && Linked(objects) && roots == Kids(objects, [])
      modifies this`output
      ensures output == old(output) + ForestLines(objects, [], Kids(objects, []))
    {
      var j := 0;
      while j < |roots|
        invariant 0 <= j <= |roots|
        invariant output == old(output) + ForestLines(objects, [], roots[..j])
      {
        RootStep(objects, roots, j, old(output));
        PrintTree(roots[j], "", [roots[j]]);
        j := j + 1;
      }
      assert roots[..j] == roots;
    }

    /** PrintTree: the transform's line at its depth, then each child's subtree. */
    method PrintTree(t: string, indent: string, ghost chain: seq<string>)
      requires Printable(objects, chain) && t == chain[|chain| - 1]
      requires indent == Indent(|chain| - 1)
      modifies this`output
      ensures output == old(output) + TreeLines(objects, chain)
      decreases |objects.keys| - |chain|, 1
    {
      TreeStart(objects, chain, output);
      WriteLine(t, indent, |chain| - 1);
      ghost var head := output;
      var children := objects.values[t].children;
      assert children == Kids(objects, chain);
      for j := 0 to |children|
        invariant Printable(objects, chain) && children == Kids(objects, chain)
        invariant output == head + ForestLines(objects, chain, children[..j])
      {
        ChildStep(objects, chain, j, head);
        PrintChild(children, j, indent, chain);
      }
      assert children[..|children|] == children;
    }

    /** One pass of PrintTree's children loop: the subtree of the j-th child, two spaces deeper. */
    method PrintChild(children: seq<string>, j: nat, indent: string, ghost chain: seq<string>)
      requires Printable(objects, chain) && children == Kids(objects, chain) && j < |children|
      requires Printable(objects, chain + [children[j]])
      requires indent == Indent(|chain| - 1)
      modifies this`output
      ensures output == old(output) + TreeLines(objects, chain + [children[j]])
      decreases |objects.keys| - |chain|, 0
    {
      ChildStep(objects, chain, j, []);
      PrintTree(children[j], indent + "  ", chain + [children[j]]);
    }

    /** The first half of PrintTree: indentation, the GameObject's name, its other components. */
    method WriteLine(t: string, indent: string, ghost depth: nat)
      requires StoreValid(objects) && t in objects.values && indent == Indent(depth)
      modifies this`output
      ensures output == old(output) + [Line(objects, t, depth)]
    {
      var transform := objects.values[t];
      var gameObjectName := "Unknown";
      var go: Option<UnityObject> := None;
      if transform.gameObjectId != "" && transform.gameObjectId in objects.values {
        go := Some(objects.values[transform.gameObjectId]);
        gameObjectName := go.value.name;
      }
      var line := indent + gameObjectName;
      ghost var suffix := "";
      if go.Some? && |go.value.componentIds| > 0 {
        var comps := ComponentNames(go.value.componentIds, transform.fileId);
        if |comps| > 0 {
          suffix := " [" + Join(", ", comps) + "]";
          line := line + " [" + Join(", ", comps) + "]";
        }
      }
      assert line == indent + gameObjectName + suffix;
      line := line + "\n";
      assert suffix == ComponentSuffix(objects, t);
      assert gameObjectName == match Owner(objects, t) case Some(g) => g.name case None => "Unknown";
      output := output + [line];
    }

    /** The component loop of PrintTree: skips the transform itself and ids with no record. */
    method ComponentNames(ids: seq<string>, self: string) returns (comps: seq<string>)
      requires StoreValid(objects)
      ensures comps == ComponentLabels(objects, ids, self)
    {
      comps := [];
      for j := 0 to |ids|
        invariant comps == ComponentLabels(objects, ids[..j], self)
      {
        assert ids[..j + 1][..j] == ids[..j];
        var compId := ids[j];
        if compId == self {
          continue;
        }
        if compId in objects.values {
          var comp := objects.values[compId];
          var compName := GetComponentName(comp.classId);
          if comp.classId == ScriptClass {
            if Count(comp.properties) > 0 {
              var props := PropertyTexts(comp.properties.keys, comp.properties.values);
              compName := compName + "(" + Join(", ", props) + ")";
            }
          }
          comps := comps + [compName];
        }
      }
      assert ids[..|ids|] == ids;
    }
  }

  /** Records straight from parsing have no children. */
  lemma {:induction false} ParsedHaveNoChildren(ps: seq<Piece>)
    ensures forall k :: k in StoreAll(ps).values ==> StoreAll(ps).values[k].children == []
  {
    if ps != [] {
      ParsedHaveNoChildren(ps[..|ps| - 1]);
    }
  }
}
