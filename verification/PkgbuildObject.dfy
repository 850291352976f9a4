/** The PKGBUILD object whose methods update its fields, against the specification. */
module PkgbuildObject {
  import opened Text
  import opened Pkgbuild
  import SplitPackages

  class PKGBUILD {
    var values: map<Slot, Value>
    var archSourceURI: seq<string>
    var archHashSums: seq<string>
    var priorities: map<string, int>
    var topLevelSnap: Option<Spec>

    constructor (targetArch: string)
      ensures Fresh(View()) && TargetArch(View()) == targetArch && topLevelSnap == None
    {
      values := if targetArch == "" then map[] else map[ScalarField("target_arch") := Scalar(targetArch)];
      archSourceURI, archHashSums, priorities, topLevelSnap := [], [], map[], None;
    }

    function View(): Spec
      reads this
    {
      Spec(values, archSourceURI, archHashSums, priorities)
    }

    method AddItem(sys: System, name: string, value: Value) returns (failed: bool)
      modifies this`values, this`archSourceURI, this`archHashSums, this`priorities
      ensures View() == Pkgbuild.AddItem(sys, old(View()), Item(name, value))
      ensures failed <==> ParseDirective(sys, TargetArch(old(View())), name).invalid
    {
      hide ParseDirective, MapVariable, MapArray, FunctionSlot, TargetArch;
      var d := ParseDirective(sys, TargetArch(View()), name);
      failed := d.invalid;
      if d.invalid || d.priority == SKIP {
        return;
      }
      var oldPriority := Priority(View(), d.key);
      if d.priority < oldPriority && d.priority != BASE {
        return;
      }
      if d.priority > oldPriority {
        priorities := priorities[d.key := d.priority];
      }
      ghost var raised := View();
      MapVariables(d.key, value);
      MapArrays(d.key, value, d.priority);
      if d.priority >= oldPriority {
        MapFunctions(d.key, value);
      }
      assert View() == MapValue(raised, d.key, value, d.priority, oldPriority);
    }

    method MapVariables(key: string, value: Value)
      modifies this`values
      ensures View() == if value.Scalar? then MapVariable(old(View()), key, value) else old(View())
    {
      if !value.Scalar? {
        return;
      }
      if IsScalar(key) {
        if IsTarget(key) && TargetArch(View()) != "" {
          return;
        }
        values := values[ScalarField(key) := value];
        return;
      }
      values := values[CustomVariable(key) := value];
    }

    method MapArrays(key: string, value: Value, priority: int)
      modifies this`values, this`archSourceURI, this`archHashSums
      ensures View() == if value.Array? then MapArray(old(View()), key, value.items, priority) else old(View())
    {
      hide IsArray, IsSource, IsName;
      var handled := MapChecksumsArrays(key, value, priority);
      if handled || !value.Array? {
        return;
      }
      if !IsArray(key) {
        values := values[CustomArray(key) := value];
      } else if IsSource(key) && priority > BASE {
        archSourceURI := archSourceURI + value.items;
      } else {
        values := values[ArrayField(key) := value];
        if IsName(key) && value.items != [] {
          values := values[ScalarField(key) := Scalar(value.items[0])];
        }
      }
    }

    method MapChecksumsArrays(key: string, value: Value, priority: int) returns (handled: bool)
      modifies this`values, this`archHashSums
      ensures handled <==> IsChecksum(key)
      ensures View() == if handled && value.Array? then MapArray(old(View()), key, value.items, priority) else old(View())
    {
      hide IsChecksum, IsArray, IsSource, IsName;
      handled := IsChecksum(key);
      if handled && value.Array? {
        if priority > BASE {
          archHashSums := archHashSums + value.items;
        } else {
          values := values[HashSums := value];
        }
      }
    }

    method MapFunctions(key: string, value: Value)
      modifies this`values
      ensures View() == if value.Body? then Put(old(View()), FunctionSlot(key), value) else old(View())
    {
      if value.Body? {
        values := values[FunctionSlot(key) := value];
      }
    }

    predicate IsSplitPackage()
      reads this
    {
      |ListAt(View(), ArrayField("pkgname"))| > 1
    }

    /** Joins the lists kept apart, and remembers the top-level values of a split package. */
    method Finalize()
      modifies this
      ensures View() == Pkgbuild.Finalize(old(View()))
      ensures topLevelSnap == if IsSplitPackage() then Some(SplitPackages.Copy(NONE, View())) else old(topLevelSnap)
    {
      values := values[SOURCES := Array(ListAt(View(), SOURCES) + archSourceURI)];
      values := values[HashSums := Array(ListAt(View(), HashSums) + archHashSums)];
      archSourceURI, archHashSums := [], [];
      if IsSplitPackage() {
        topLevelSnap := Some(SplitPackages.Copy(NONE, View()));
      }
    }

    /** copySplitOverrideFields with this object as its destination. */
    method CopySplitOverrideFields(src: Spec)
      modifies this`values, this`priorities
      ensures View() == SplitPackages.Copy(old(View()), src)
    {
      CopyFields(src);
      CopyPriorities(src, SplitPackages.OVERRIDE_KEYS);
      assert View().priorities == SplitPackages.Copy(old(View()), src).priorities;
    }

    method CopyFields(src: Spec)
      modifies this`values
      ensures values == SplitPackages.Copy(old(View()), src).values
    {
      hide SplitPackages.IsOverrideKey, Priority;
      ghost var before := View();
      assert forall slot :: SplitPackages.IsCopied(slot) <==> slot in SplitPackages.COPIED;
      hide SplitPackages.IsCopied, SplitPackages.Copy;
      CopySlots(src, SplitPackages.COPIED);
      forall slot
        ensures SameSlot(View(), SplitPackages.Copy(before, src), slot)
      {
        SplitPackages.CopyAt(before, src, slot);
      }
      SameSlotsSameValues(View(), SplitPackages.Copy(before, src));
    }

    method CopySlots(src: Spec, slots: set<Slot>)
      modifies this`values
      ensures forall slot :: if slot in slots then SameSlot(View(), src, slot) else SameSlot(View(), old(View()), slot)
    {
      var todo := slots;
      ghost var before := View();
      while todo != {}
        invariant todo <= slots
        invariant forall slot ::
          if slot in slots && slot !in todo then SameSlot(View(), src, slot) else SameSlot(View(), before, slot)
        decreases |todo|
      {
        var slot :| slot in todo;
        todo := todo - {slot};
        values := if slot in src.values then values[slot := src.values[slot]] else values - {slot};
      }
    }

    method CopyPriorities(src: Spec, keys: set<string>)
      modifies this`priorities
      ensures forall k :: k in priorities <==> k in old(priorities) || k in keys
      ensures forall k :: k in priorities ==> priorities[k] == if k in keys then Priority(src, k) else old(priorities)[k]
    {
      hide Priority;
      var todo := keys;
      ghost var before := priorities;
      while todo != {}
        invariant todo <= keys && forall k :: k in priorities <==> k in before || (k in keys && k !in todo)
        invariant forall k :: k in priorities ==>
          priorities[k] == if k in keys && k !in todo then Priority(src, k) else before[k]
        decreases |todo|
      {
        var k :| k in todo;
        todo := todo - {k};
        priorities := priorities[k := Priority(src, k)];
      }
    }

    method RestoreTopLevelOverrides()
      modifies this`values, this`priorities
      ensures View() == if topLevelSnap.Some? then SplitPackages.Copy(old(View()), topLevelSnap.value) else old(View())
    {
      if topLevelSnap.Some? {
        CopySplitOverrideFields(topLevelSnap.value);
      }
    }

    /** The assignments of one package function, in order. */
    method ParseSplitOverrides(sys: System, items: seq<Item>)
      modifies this`values, this`archSourceURI, this`archHashSums, this`priorities
      ensures View() == SplitPackages.ParseOverrides(sys, old(View()), items)
    {
      ghost var start := View();
      hide Pkgbuild.AddItem, SplitPackages.OverrideBase, SplitPackages.IsOverrideKey;
      assert items[..0] == [];
      for i := 0 to |items|
        invariant View() == SplitPackages.ParseOverrides(sys, start, items[..i])
      {
        assert items[..i + 1][..i] == items[..i];
        if SplitPackages.IsOverrideKey(SplitPackages.OverrideBase(items[i].name)) {
          var _ := AddItem(sys, items[i].name, items[i].value);
        }
      }
      assert items[..|items|] == items;
    }

    /** The loop over the sub-packages of a finalized split package. After each of them
        the copied fields are what the top-level values and its own body alone give. */
    method EachSubPackage(sys: System, bodies: seq<seq<Item>>)
      requires topLevelSnap.Some?
      modifies this`values, this`archSourceURI, this`archHashSums, this`priorities
      ensures View() == SplitPackages.SubPackages(sys, old(View()), topLevelSnap.value, bodies)
      ensures bodies != [] ==>
        var alone := SplitPackages.ParseOverrides(sys, SplitPackages.Copy(old(View()), topLevelSnap.value), bodies[|bodies| - 1]);
        SplitPackages.Agree(View(), alone)
    {
      ghost var start, snap := View(), topLevelSnap.value;
      hide SplitPackages.ParseOverrides, SplitPackages.Copy, SplitPackages.Agree;
      assert bodies[..0] == [];
      for i := 0 to |bodies|
        invariant View() == SplitPackages.SubPackages(sys, start, snap, bodies[..i])
      {
        assert bodies[..i + 1][..i] == bodies[..i];
        RestoreTopLevelOverrides();
        ParseSplitOverrides(sys, bodies[i]);
      }
      assert bodies[..|bodies|] == bodies;
      if bodies != [] {
        SplitPackages.SubPackageStandsAlone(sys, start, start, snap, bodies);
      }
    }
  }

  lemma SameSlotsSameValues(s: Spec, t: Spec)
    requires forall slot :: SameSlot(s, t, slot)
    ensures s.values == t.values
  {
    assert forall slot :: SameSlot(s, t, slot) ==> (slot in s.values <==> slot in t.values);
  }

  const NONE: Spec := Spec(map[], [], [], map[])
}
