/** Merging the recommended settings into an existing configuration: only what is missing is added. */
module ConfigMerge {

  datatype Value = Scalar(text: string) | Mapping(entries: map<string, Value>)

  // ---------- what stands at a path ----------

  /** Following a path of keys finds a scalar or a mapping, ends at a missing key, or is blocked by a
      scalar on the way. */
  datatype Found = Missing | Blocked | Text(text: string) | Map

  function Reach(v: Value, path: seq<string>): Found
    decreases |path|
  {
    match v
    case Scalar(text) => if path == [] then Text(text) else Blocked
    case Mapping(entries) =>
      if path == [] then Map
      else if path[0] !in entries then Missing
      else Reach(entries[path[0]], path[1..])
  }

  predicate Something(f: Found) { f.Text? || f.Map? }

  // ---------- the merge ----------

  /** The merge key by key, in no particular order. */
  function Merged(dst: Value, src: Value): Value
    decreases dst
  {
    if dst.Mapping? && src.Mapping? then
      Mapping(map key | key in dst.entries.Keys + src.entries.Keys :: MergedAt(dst, src, key))
    else dst
  }

  function MergedAt(dst: Value, src: Value, key: string): Value
    requires dst.Mapping? && src.Mapping? && (key in dst.entries || key in src.entries)
    decreases dst, 0
  {
    if key !in dst.entries then src.entries[key]
    else if key !in src.entries then dst.entries[key]
    else Merged(dst.entries[key], src.entries[key])
  }

  /** Some key of `keys` is to be added or is changed by its own merge. */
  predicate ChangesIn(dst: Value, src: Value, keys: set<string>)
    requires dst.Mapping? && src.Mapping? && keys <= src.entries.Keys
  {
    exists key :: key in keys && (key !in dst.entries || MergedAt(dst, src, key) != dst.entries[key])
  }

  lemma ChangesIffDifferent(dst: Value, src: Value)
    requires dst.Mapping? && src.Mapping?
    ensures ChangesIn(dst, src, src.entries.Keys) <==> Merged(dst, src) != dst
  {
    var m := Merged(dst, src);
    if ChangesIn(dst, src, src.entries.Keys) {
      var key :| key in src.entries.Keys && (key !in dst.entries || MergedAt(dst, src, key) != dst.entries[key]);
      MergedEntry(dst, src, key);
    } else {
      forall key | key in m.entries
        ensures key in dst.entries && m.entries[key] == dst.entries[key]
      {
        MergedEntry(dst, src, key);
      }
      assert m.entries.Keys == dst.entries.Keys;
    }
  }

  lemma MergedEntry(dst: Value, src: Value, key: string)
    requires dst.Mapping? && src.Mapping? && (key in dst.entries || key in src.entries)
    ensures var m := Merged(dst, src);
            m.Mapping? && key in m.entries && m.entries[key] == MergedAt(dst, src, key)
  {
  }

  /** The merge of some keys of the source. */
  ghost function PartMerged(dst: Value, src: Value, done: set<string>): Value
    requires dst.Mapping? && src.Mapping? && done <= src.entries.Keys
  {
    Mapping(map key | key in dst.entries.Keys + done ::
      if key in done then MergedAt(dst, src, key) else dst.entries[key])
  }

  lemma PartMergedEnds(dst: Value, src: Value)
    requires dst.Mapping? && src.Mapping?
    ensures PartMerged(dst, src, {}) == dst
    ensures PartMerged(dst, src, src.entries.Keys) == Merged(dst, src)
  {
    assert PartMerged(dst, src, {}).entries == dst.entries;
    forall key | key in PartMerged(dst, src, src.entries.Keys).entries
      ensures key in Merged(dst, src).entries && Merged(dst, src).entries[key] == MergedAt(dst, src, key)
    {
      MergedEntry(dst, src, key);
    }
    assert PartMerged(dst, src, src.entries.Keys).entries == Merged(dst, src).entries;
  }

  /** One more key. */
  lemma PartMergedStep(dst: Value, src: Value, done: set<string>, key: string)
    requires dst.Mapping? && src.Mapping? && done <= src.entries.Keys && key in src.entries && key !in done
    ensures var part := PartMerged(dst, src, done);
            var next := Mapping(part.entries[key := MergedAt(part, src, key)]);
            && next == PartMerged(dst, src, done + {key})
            && (ChangesIn(dst, src, done + {key}) <==>
                ChangesIn(dst, src, done) || key !in part.entries || next.entries[key] != part.entries[key])
  {
    var part := PartMerged(dst, src, done);
    assert MergedAt(part, src, key) == MergedAt(dst, src, key);
    assert part.entries[key := MergedAt(part, src, key)] == PartMerged(dst, src, done + {key}).entries;
  }

  // ---------- the merge in place ----------

  datatype Entry = Plain(text: string) | Nested(node: YamlMap)

  /** A mapping as it lies in memory: nested mappings are references. `value` is the configuration it
      stands for, and `repr` the mapping objects it is made of. */
  class YamlMap {
    var entries: map<string, Entry>
    ghost var value: Value
    ghost var repr: set<YamlMap>

    ghost predicate Holds(entry: Entry, v: Value)
      reads this, repr
      decreases repr, 0
    {
      match entry
      case Plain(text) => v == Scalar(text)
      case Nested(node) =>
        node in repr && node.repr < repr && this !in node.repr && node.Valid() && v == node.value
    }

    /** A tree: no mapping object is reached twice. */
    ghost predicate Valid()
      reads this, repr
      decreases repr, 1
    {
      && this in repr
      && value.Mapping? && value.entries.Keys == entries.Keys
      && (forall key :: key in entries ==> Holds(entries[key], value.entries[key]))
      && (forall j, k :: j in entries && k in entries && j != k && entries[j].Nested? && entries[k].Nested? ==>
            entries[j].node.repr !! entries[k].node.repr)
    }

    /** The mapping objects below one key. */
    ghost function Below(key: string): (nodes: set<YamlMap>)
      requires Valid()
      reads this, repr
      ensures nodes <= repr && this !in nodes
      ensures key in entries && entries[key].Nested? ==> entries[key].node in nodes
    {
      if key in entries && entries[key].Nested? then
        assert Holds(entries[key], value.entries[key]);
        assert entries[key].node.Valid();
        entries[key].node.repr
      else {}
    }

    constructor ()
      ensures Valid() && fresh(repr) && value == Mapping(map[])
    {
      entries, value := map[], Mapping(map[]);
      repr := {this};
    }

    /** The configuration to be written out. */
    method Marshal() returns (out: Value)
      requires Valid()
      ensures out == value
      decreases value
    {
      var todo, written: map<string, Value> := entries.Keys, map[];
      while todo != {}
        invariant todo <= entries.Keys && written.Keys == entries.Keys - todo
        invariant forall key :: key in written ==> written[key] == value.entries[key]
        decreases todo
      {
        var key :| key in todo;
        assert Holds(entries[key], value.entries[key]);
        match entries[key] {
          case Plain(text) => written := written[key := Scalar(text)];
          case Nested(node) =>
            var inner := node.Marshal();
            written := written[key := inner];
        }
        todo := todo - {key};
      }
      assert written == value.entries;
      return Mapping(written);
    }

    /** A missing key takes the source's entry as it is: a nested mapping is shared from then on. */
    method AddMissing(key: string, entry: Entry, ghost v: Value)
      requires Valid() && key !in entries
      requires match entry
               case Plain(text) => v == Scalar(text)
               case Nested(node) => node.Valid() && node.repr !! repr && v == node.value
      modifies this
      ensures Valid() && entries == old(entries)[key := entry]
      ensures value == Mapping(old(value).entries[key := v])
      ensures repr == old(repr) + if entry.Nested? then entry.node.repr else {}
    {
      ghost var was := entries;
      forall k | k in entries && entries[k].Nested?
        ensures entries[k].node in repr && entries[k].node.repr < repr && this !in entries[k].node.repr
        ensures entries[k].node.Valid() && value.entries[k] == entries[k].node.value
      {
        assert Holds(entries[k], value.entries[k]);
      }
      forall k | k in entries && entries[k].Plain?
        ensures value.entries[k] == Scalar(entries[k].text)
      {
        assert Holds(entries[k], value.entries[k]);
      }
      entries := entries[key := entry];
      value := Mapping(value.entries[key := v]);
      if entry.Nested? {
        assert entry.node.Valid();
        repr := repr + entry.node.repr;
      }
      forall k | k in entries
        ensures Holds(entries[k], value.entries[k])
      {
        if k != key {
          assert entries[k] == was[k];
        }
      }
    }

    /** The nested mapping at `key` was merged in place. */
    ghost method NoteMerged(key: string)
      requires key in entries && entries[key].Nested?
      requires this in repr && value.Mapping? && value.entries.Keys == entries.Keys
      requires entries[key].node.Valid() && this !in entries[key].node.repr
      requires forall k :: k in entries && k != key ==> Holds(entries[k], value.entries[k])
      requires forall j, k :: j in entries && k in entries && j != k && entries[j].Nested? && entries[k].Nested? ==>
                 entries[j].node.repr !! entries[k].node.repr
      modifies this`value, this`repr
      ensures Valid()
      ensures value == Mapping(old(value).entries[key := entries[key].node.value])
      ensures repr == old(repr) + entries[key].node.repr
    {
      forall k | k in entries && k != key && entries[k].Nested?
        ensures entries[k].node in repr && entries[k].node.repr < repr && this !in entries[k].node.repr
        ensures entries[k].node.Valid() && value.entries[k] == entries[k].node.value
      {
        assert Holds(entries[k], value.entries[k]);
      }
      forall k | k in entries && k != key && entries[k].Plain?
        ensures value.entries[k] == Scalar(entries[k].text)
      {
        assert Holds(entries[k], value.entries[k]);
      }
      value := Mapping(value.entries[key := entries[key].node.value]);
      repr := repr + entries[key].node.repr;
      forall k | k in entries
        ensures Holds(entries[k], value.entries[k])
      {
      }
    }

    /** Both sides have a mapping at `key`: the destination's is merged in place. */
    method MergeNested(src: YamlMap, key: string) returns (changed: bool)
      requires Valid() && src.Valid()
      requires key in entries && entries[key].Nested? && key in src.entries && src.entries[key].Nested?
      requires src.entries[key].node.repr !! repr
      requires Below(key) !! src.repr
      modifies this`value, this`repr, entries[key].node.repr
      ensures Valid()
      ensures value == Mapping(old(value).entries[key := Merged(old(value).entries[key], src.value.entries[key])])
      ensures repr <= old(repr) + src.entries[key].node.repr
      ensures changed <==> value.entries[key] != old(value).entries[key]
      decreases src.value, 0
    {
      var node := entries[key].node;
      var from := src.entries[key].node;
      ghost var before := entries;
      assert Holds(entries[key], value.entries[key]);
      assert src.Holds(src.entries[key], src.value.entries[key]);
      ghost var nodes, apart := node.repr, from.repr;
      forall k | k in entries && k != key && entries[k].Nested?
        ensures entries[k].node.Valid() && entries[k].node.repr !! nodes && entries[k].node.repr !! apart
        ensures entries[k].node in entries[k].node.repr
      {
        assert Holds(entries[k], value.entries[k]);
      }
      label Before:
      changed := node.MergeMissingYAML(from);
      assert entries == before;
      forall k | k in entries && k != key
        ensures Holds(entries[k], value.entries[k])
        ensures entries[k].Nested? ==> entries[k].node.repr !! node.repr
      {
        assert old@Before(Holds(entries[k], value.entries[k]));
        if entries[k].Nested? {
          assert unchanged@Before(entries[k].node.repr);
        }
      }
      NoteMerged(key);
    }

    /** One key of the source. */
    method MergeKey(src: YamlMap, key: string) returns (changed: bool)
      requires Valid() && src.Valid() && key in src.entries
      requires src.Below(key) !! repr
      requires {this} + Below(key) !! src.repr
      modifies this, Below(key)
      ensures Valid()
      ensures entries.Keys == old(entries).Keys + {key}
      ensures forall k :: k in old(entries) && k != key ==> entries[k] == old(entries)[k]
      ensures value == Mapping(old(value).entries[key := MergedAt(old(value), src.value, key)])
      ensures repr <= old(repr) + old(src.Below(key))
      ensures changed <==> key !in old(entries) || value.entries[key] != old(value).entries[key]
      decreases src.value, 1
    {
      assert src.Holds(src.entries[key], src.value.entries[key]);
      if key in entries {
        assert Holds(entries[key], value.entries[key]);
        if entries[key].Nested? && src.entries[key].Nested? {
          changed := MergeNested(src, key);
          return;
        }
        assert value.entries[key := value.entries[key]] == value.entries;
        return false;
      }
      AddMissing(key, src.entries[key], src.value.entries[key]);
      return true;
    }

    /** The keys in `todo` can be merged: what lies below them is apart from the source, and what the
        source has below them is apart from this mapping. */
    ghost predicate Ready(src: YamlMap, todo: set<string>)
      reads this, repr, src, src.repr
    {
      && Valid() && src.Valid() && this !in src.repr && todo <= src.entries.Keys
      && forall key :: key in todo ==> src.Below(key) !! repr && Below(key) !! src.repr
    }

    method MergeNext(src: YamlMap, todo: set<string>, key: string) returns (changed: bool)
      requires Ready(src, todo) && key in todo
      modifies this, Below(key)
      ensures Ready(src, todo - {key})
      ensures src.entries == old(src.entries) && src.value == old(src.value) && src.repr == old(src.repr)
      ensures value == Mapping(old(value).entries[key := MergedAt(old(value), src.value, key)])
      ensures forall k :: k in todo && k != key ==> Below(k) == old(Below(k))
      ensures repr <= old(repr) + src.repr
      ensures changed <==> key !in old(value).entries || value.entries[key] != old(value).entries[key]
      decreases src.value, 2
    {
      forall k | k in todo && k != key
        ensures src.Below(k) !! src.Below(key) && Below(k) !! Below(key)
        ensures k in entries && entries[k].Nested? ==> entries[k].node !in Below(key) && entries[k].node != this
      {
      }
      label Before:
      changed := MergeKey(src, key);
      assert unchanged@Before(src.repr);
    }

    /** The keys of the source in any order, in place. The destination ends as the merge of the two values;
        `changed` tells exactly whether its value did; the source is not written. */
    method MergeMissingYAML(src: YamlMap) returns (changed: bool)
      requires Valid() && src.Valid() && repr !! src.repr
      modifies repr
      ensures Valid() && value == Merged(old(value), src.value)
      ensures repr <= old(repr) + src.repr
      ensures changed <==> value != old(value)
      decreases src.value, 3
    {
      changed := false;
      var todo := src.entries.Keys;
      ghost var all := src.entries.Keys;
      ghost var dst, part := value, src.value;
      forall k | k in all
        ensures src.Below(k) !! repr && Below(k) !! src.repr && Below(k) <= repr
      {
      }
      PartMergedEnds(dst, part);
      while todo != {}
        invariant todo <= all == src.entries.Keys && src.value == part && src.repr == old(src.repr)
        invariant Ready(src, todo)
        invariant forall k :: k in todo ==> Below(k) <= old(repr)
        invariant repr <= old(repr) + src.repr
        invariant value == PartMerged(dst, part, all - todo)
        invariant changed <==> ChangesIn(dst, part, all - todo)
        decreases todo
      {
        var key :| key in todo;
        PartMergedStep(dst, part, all - todo, key);
        assert all - (todo - {key}) == (all - todo) + {key};
        var inner := MergeNext(src, todo, key);
        changed := changed || inner;
        todo := todo - {key};
      }
      assert all - todo == all;
      ChangesIffDifferent(dst, part);
    }
  }

  // ---------- what the merge means, path by path ----------

  /** The whole meaning of the merge: a path finds a scalar or a mapping afterwards exactly if it found
      that in the destination, or the destination was missing a key on the way, none of its scalars
      stood there, and the path finds it in the source. */
  lemma {:induction false} MergedFinds(dst: Value, src: Value, path: seq<string>, f: Found)
    requires Something(f)
    requires dst.Mapping? && src.Mapping?
    ensures Reach(Merged(dst, src), path) == f <==>
            Reach(dst, path) == f || (Reach(dst, path) == Missing && Reach(src, path) == f)
    decreases |path|
  {
    if path != [] {
      var key := path[0];
      if key in dst.entries || key in src.entries {
        MergedEntry(dst, src, key);
      }
      if key in dst.entries && key in src.entries && dst.entries[key].Mapping? && src.entries[key].Mapping? {
        MergedFinds(dst.entries[key], src.entries[key], path[1..], f);
      } else if key in dst.entries && key in src.entries {
        ScalarInTheWay(dst.entries[key], src.entries[key], path[1..], f);
      }
    }
  }

  lemma ScalarInTheWay(dst: Value, src: Value, path: seq<string>, f: Found)
    requires Something(f) && !(dst.Mapping? && src.Mapping?)
    ensures !(Reach(dst, path) == Missing && Reach(src, path) == f)
  {
  }

  /** Paths tell everything: two configurations in which the same paths find the same are equal. So the
      merge is the only one with the meaning above. */
  lemma {:induction false} PathsTellAll(a: Value, b: Value)
    requires forall path, f :: Something(f) ==> (Reach(a, path) == f <==> Reach(b, path) == f)
    ensures a == b
    decreases a
  {
    assert Something(Reach(a, [])) && Something(Reach(b, []));
    assert Reach(a, []) == Reach(b, []);
    if a.Mapping? {
      forall key | key in a.entries || key in b.entries
        ensures key in a.entries && key in b.entries && a.entries[key] == b.entries[key]
      {
        SameKeys(a, b, key);
        forall path, f | Something(f)
          ensures Reach(a.entries[key], path) == f <==> Reach(b.entries[key], path) == f
        {
          assert ([key] + path)[1..] == path;
          assert Reach(a, [key] + path) == f <==> Reach(b, [key] + path) == f;
        }
        PathsTellAll(a.entries[key], b.entries[key]);
      }
      assert a.entries.Keys == b.entries.Keys;
    }
  }

  lemma SameKeys(a: Value, b: Value, key: string)
    requires a.Mapping? && b.Mapping?
    requires forall path, f :: Something(f) ==> (Reach(a, path) == f <==> Reach(b, path) == f)
    ensures key in a.entries <==> key in b.entries
  {
    assert [key][1..] == [];
    assert key in a.entries ==> Something(Reach(a, [key]));
    assert key in b.entries ==> Something(Reach(b, [key]));
    assert Reach(a, [key]) == Reach(a, [key]) && Reach(b, [key]) == Reach(b, [key]);
  }

  /** An existing scalar is never changed, and neither is a mapping ever replaced. */
  lemma ExistingStays(dst: Value, src: Value, path: seq<string>)
    requires dst.Mapping? && src.Mapping? && Something(Reach(dst, path))
    ensures Reach(Merged(dst, src), path) == Reach(dst, path)
  {
    MergedFinds(dst, src, path, Reach(dst, path));
  }

  /** Every path of the source is there afterwards, or the destination has something else in its place:
      a scalar on the way, or another scalar or a mapping at the end. */
  lemma SourcePresentOrShadowed(dst: Value, src: Value, path: seq<string>)
    requires dst.Mapping? && src.Mapping? && Something(Reach(src, path))
    ensures Reach(Merged(dst, src), path) == Reach(src, path)
            || Reach(dst, path) == Blocked || Something(Reach(dst, path))
  {
    MergedFinds(dst, src, path, Reach(src, path));
  }

  lemma {:induction false} MergeTwice(dst: Value, src: Value)
    ensures Merged(Merged(dst, src), src) == Merged(dst, src)
    decreases dst
  {
    if dst.Mapping? && src.Mapping? {
      var m := Merged(dst, src);
      forall key | key in m.entries
        ensures MergedAt(m, src, key) == m.entries[key]
      {
        MergedEntry(dst, src, key);
        if key in dst.entries && key in src.entries {
          MergeTwice(dst.entries[key], src.entries[key]);
        } else if key in src.entries {
          MergeWithItself(src.entries[key]);
        }
      }
      assert Merged(m, src).entries == m.entries;
    }
  }

  lemma {:induction false} MergeWithItself(v: Value)
    ensures Merged(v, v) == v
  {
    if v.Mapping? {
      forall key | key in v.entries
        ensures MergedAt(v, v, key) == v.entries[key]
      {
        MergeWithItself(v.entries[key]);
      }
      assert Merged(v, v).entries == v.entries;
    }
  }

  // ---------- the file ----------

  datatype Option<T> = None | Some(value: T)

  class OmpConfig {
    var file: Option<Value>

    constructor (file: Option<Value>)
      ensures this.file == file
    {
      this.file := file;
    }

    /** `current` is the file as read, empty when there is none. An existing file is written only when the
        merge changes it; a missing one always is. */
    method WriteRecommended(current: YamlMap, recommended: YamlMap) returns (written: bool)
      requires current.Valid() && recommended.Valid() && current.repr !! recommended.repr
      requires current.value == if file.Some? then file.value else Mapping(map[])
      modifies this, current.repr
      ensures file == Some(Merged(old(current.value), old(recommended.value)))
      ensures written <==> file != old(file)
    {
      ghost var before, wanted := current.value, recommended.value;
      var changed := current.MergeMissingYAML(recommended);
      if !changed && file.Some? {
        return false;
      }
      var out := current.Marshal();
      file := Some(out);
      return true;
    }
  }
}
