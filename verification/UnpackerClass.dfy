/** The unpacker as the object it is: see `PackerClass`. */
module UnpackerClass {
  import opened Types
  import opened Packing
  import opened Unpacking
  import opened UnpackErrorPaths
  import opened FieldStack

  /** `UnpackMessageElement_pod`: the loop over the elements of a pod array. */
  method UnpackPodRecords(env: Env, fs: seq<Field>, es: seq<Elem>) returns (r: Outcome<seq<Cell>>)
    ensures r == AsOutcome(UnpackRecords(env, fs, es, 0))
    decreases es, 0
  {
    var a: seq<Cell> := [];
    var i := 0;
    PrependNothing(UnpackRecords(env, fs, es, 0));
    assert es[0..] == es;
    while i < |es|
      invariant 0 <= i <= |es|
      invariant UnpackRecords(env, fs, es, 0) == Prepend(a, UnpackRecords(env, fs, es[i..], i))
    {
      var el1 := es[i];
      assert es[i..][0] == el1 && es[i..][1..] == es[i + 1..];
      var pos := CheckPosition(el1.id, i);
      if pos.Err? {
        return Thrown(pos.error);
      }
      if !el1.data.Nested? || !el1.data.typ.PodT? {
        return Thrown(DataTypeError);
      }
      assert el1.data < el1;
      var slots := UnpackPodFields(env, fs, el1.data.elems);
      if slots.Thrown? {
        return Thrown(slots.error);
      }
      PrependOne(a, Record(slots.value), UnpackRecords(env, fs, es[i + 1..], i + 1));
      a := a + [Record(slots.value)];
      i := i + 1;
    }
    assert a + [] == a;
    return Done(a);
  }

  lemma UnpackSlotsStep(env: Env, fs: seq<Field>, es: seq<Elem>, i: nat)
    requires i <= |fs|
    ensures UnpackSlots(env, fs[i..], es)
         == if i == |fs| then Ok([])
            else match FindElement(es, fs[i].name)
                 case Nothing => Fail(NotFoundError)
                 case Just(e) =>
                   var cells := UnpackSlotCells(env, fs[i].typ, e.data);
                   if cells.Err? then cells.PropagateFailure()
                   else
                     var s := StoreField(fs[i].typ, cells.value);
                     if s.Err? then s.PropagateFailure()
                     else Prepend([s.value], UnpackSlots(env, fs[i + 1..], es))
  {
    hide UnpackSlotCells, StoreField, FindElement;
    if i < |fs| {
      assert fs[i..][0] == fs[i] && fs[i..][1..] == fs[i + 1..];
    }
  }

  /** The loop over the fields of one record. */
  method UnpackPodFields(env: Env, fs: seq<Field>, es: seq<Elem>) returns (r: Outcome<seq<Slot>>)
    ensures r == AsOutcome(UnpackSlots(env, fs, es))
    decreases es, 1
  {
    hide UnpackSlots, UnpackSlotCells, StoreField, FindElement;
    var slots: seq<Slot> := [];
    var i := 0;
    PrependNothing(UnpackSlots(env, fs, es));
    assert fs[0..] == fs;
    while i < |fs|
      invariant 0 <= i <= |fs|
      invariant UnpackSlots(env, fs, es) == Prepend(slots, UnpackSlots(env, fs[i..], es))
    {
      UnpackSlotsStep(env, fs, es, i);
      var el := FindElement(es, fs[i].name);
      if el.Nothing? {
        return Thrown(NotFoundError);
      }
      FindElementIn(es, fs[i].name);
      assert el.value.data < el.value;
      var cells := UnpackPodField(env, fs[i].typ, el.value.data);
      if cells.Thrown? {
        return Thrown(cells.error);
      }
      var s := StoreField(fs[i].typ, cells.value);
      if s.Err? {
        return Thrown(s.error);
      }
      PrependOne(slots, s.value, UnpackSlots(env, fs[i + 1..], es));
      slots := slots + [s.value];
      i := i + 1;
    }
    UnpackSlotsStep(env, fs, es, i);
    assert slots + [] == slots;
    return Done(slots);
  }

  method UnpackPodField(env: Env, t: TypeDef, d: Data) returns (r: Outcome<seq<Cell>>)
    ensures r == AsOutcome(UnpackSlotCells(env, t, d))
    decreases d, 2
  {
    match t.base
    case Named(Pod(q, _)) =>
      var v := UnpackPodArray(env, d, Just(FlattenType(t)));
      r := if v.Done? then AsOutcome(RecordCells(v.value, q)) else Thrown(v.error);
    case _ => r := AsOutcome(UnpackSlotCells(env, t, d));
  }

  method UnpackPodArray(env: Env, d: Data, t: Option<TypeDef>) returns (r: Outcome<Py>)
    ensures r == AsOutcome(UnpackPods(env, d, t))
    decreases d, 0
  {
    if !d.Nested? || !d.typ.PodArrayT? {
      return Thrown(DataTypeError);
    }
    if d.typeName !in env.pods {
      return Thrown(NotFoundError);
    }
    var checked := CheckUnpackedRecords(t, |d.elems|);
    if checked.Err? {
      return Thrown(checked.error);
    }
    var a := UnpackPodRecords(env, env.pods[d.typeName], d.elems);
    if a.Thrown? {
      return Thrown(a.error);
    }
    if t.Just? && t.value.arr.NotArray? && |d.elems| != 1 {
      return Thrown(DataTypeError);
    }
    return Done(NdArray(DNamed(d.typeName), [|d.elems|], a.value));
  }

  lemma UnpackItemsStep(env: Env, es: seq<Elem>, t: Option<TypeDef>, i: nat)
    requires i <= |es|
    ensures UnpackItems(env, es[i..], t, i)
         == if i == |es| then Ok([])
            else
              var pos := CheckPosition(es[i].id, i);
              var v := Within(Frame(Index(i), t), if pos.Err? then Fail(pos.error) else Unpack(env, es[i].data, t));
              if v.Err? then v.PropagateFailure() else Prepend([v.value], UnpackItems(env, es[i + 1..], t, i + 1))
  {
    hide Unpack, CheckPosition;
    if i < |es| {
      assert es[i..][0] == es[i] && es[i..][1..] == es[i + 1..];
    }
  }

  lemma UnpackVarItemsStep(env: Env, es: seq<Elem>, i: nat)
    requires i <= |es|
    ensures UnpackVarItems(env, es[i..], i)
         == if i == |es| then Ok([])
            else
              var pos := CheckPosition(es[i].id, i);
              if pos.Err? then pos.PropagateFailure()
              else
                var t := Just(VARVALUE_TYPE);
                var v := Within(Frame(Index(i), t), Unpack(env, es[i].data, t));
                if v.Err? then v.PropagateFailure() else Prepend([v.value], UnpackVarItems(env, es[i + 1..], i + 1))
  {
    hide Unpack, CheckPosition;
    if i < |es| {
      assert es[i..][0] == es[i] && es[i..][1..] == es[i + 1..];
    }
  }

  lemma UnpackFieldsStep(env: Env, es: seq<Elem>, fs: seq<Field>, i: nat)
    requires i <= |fs|
    ensures UnpackFields(env, es, fs[i..])
         == if i == |fs| then Ok([])
            else
              var found := FindElement(es, fs[i].name);
              var v := Within(Frame(Member(fs[i].name), Just(fs[i].typ)),
                              if found.Nothing? then Fail(NotFoundError)
                              else Unpack(env, found.value.data, Just(fs[i].typ)));
              if v.Err? then v.PropagateFailure()
              else Prepend([Attr(fs[i].name, v.value)], UnpackFields(env, es, fs[i + 1..]))
  {
    hide Unpack, FindElement;
    if i < |fs| {
      assert fs[i..][0] == fs[i] && fs[i..][1..] == fs[i + 1..];
    }
  }

  class UnpackMessageElementImpl {
    var fieldName: seq<string>
    var fieldType: seq<Option<TypeDef>>

    constructor ()
      ensures fieldName == [] && fieldType == []
    {
      fieldName, fieldType := [], [];
    }

    method PushFieldLevel(l: Level, t: Option<TypeDef>)
      modifies this
      ensures fieldName == old(fieldName) + [LevelText(l)] && fieldType == old(fieldType) + [t]
    {
      fieldName, fieldType := fieldName + [LevelText(l)], fieldType + [t];
    }

    method PopFieldLevel()
      requires fieldName != [] && fieldType != []
      modifies this
      ensures fieldName == old(fieldName[..|fieldName| - 1]) && fieldType == old(fieldType[..|fieldType| - 1])
    {
      fieldName, fieldType := fieldName[..|fieldName| - 1], fieldType[..|fieldType| - 1];
    }

    /** One nested element: enter its level, unpack it, leave the level unless it threw. */
    method UnpackLevel(env: Env, f: Frame, d: Data, t: Option<TypeDef>) returns (r: Outcome<Py>)
      modifies this
      ensures Stacked(Within(f, Unpack(env, d, t)), r, old(fieldName), old(fieldType), fieldName, fieldType)
      ensures r.Done? ==> r.value == Unpack(env, d, t).value
      decreases d, 3, 0
    {
      hide Unpack, Within, Names, TypesOf, LevelText;
      PushFieldLevel(f.level, f.typ);
      r := UnpackMessageElement(env, d, t);
      StackedInLevel(f, Unpack(env, d, t), r, old(fieldName), old(fieldType), fieldName, fieldType);
      if r.Done? {
        PopFieldLevel();
      }
    }

    method UnpackListItems(env: Env, es: seq<Elem>, t: Option<TypeDef>) returns (r: Outcome<seq<Py>>)
      modifies this
      ensures Stacked(UnpackItems(env, es, t, 0), r, old(fieldName), old(fieldType), fieldName, fieldType)
      ensures r.Done? ==> r.value == UnpackItems(env, es, t, 0).value
      decreases es, 0, 0
    {
      hide Unpack, UnpackItems, Names, TypesOf, CheckPosition;
      var ret: seq<Py> := [];
      var i := 0;
      PrependNothing(UnpackItems(env, es, t, 0));
      assert es[0..] == es;
      while i < |es|
        invariant 0 <= i <= |es|
        invariant fieldName == old(fieldName) && fieldType == old(fieldType)
        invariant UnpackItems(env, es, t, 0) == Prepend(ret, UnpackItems(env, es[i..], t, i))
      {
        UnpackItemsStep(env, es, t, i);
        var pos := CheckPosition(es[i].id, i);
        if pos.Err? {
          PushFieldLevel(Index(i), t);
          ThrownInLevel<Py, seq<Py>>(Frame(Index(i), t), pos.error, old(fieldName), old(fieldType));
          return Thrown(pos.error);
        }
        assert es[i].data < es[i];
        var el2 := UnpackLevel(env, Frame(Index(i), t), es[i].data, t);
        if el2.Thrown? {
          return Thrown(el2.error);
        }
        PrependOne(ret, el2.value, UnpackItems(env, es[i + 1..], t, i + 1));
        ret := ret + [el2.value];
        i := i + 1;
      }
      UnpackItemsStep(env, es, t, i);
      assert ret + [] == ret;
      return Done(ret);
    }

    method UnpackVarListItems(env: Env, es: seq<Elem>) returns (r: Outcome<seq<Py>>)
      modifies this
      ensures Stacked(UnpackVarItems(env, es, 0), r, old(fieldName), old(fieldType), fieldName, fieldType)
      ensures r.Done? ==> r.value == UnpackVarItems(env, es, 0).value
      decreases es, 0, 0
    {
      hide Unpack, UnpackVarItems, Names, TypesOf;
      var ret: seq<Py> := [];
      var i := 0;
      PrependNothing(UnpackVarItems(env, es, 0));
      NoLevels(fieldName, fieldType);
      assert es[0..] == es;
      while i < |es|
        invariant 0 <= i <= |es|
        invariant fieldName == old(fieldName) && fieldType == old(fieldType)
        invariant UnpackVarItems(env, es, 0) == Prepend(ret, UnpackVarItems(env, es[i..], i))
      {
        UnpackVarItemsStep(env, es, i);
        var pos := CheckPosition(es[i].id, i);
        if pos.Err? {
          return Thrown(pos.error);
        }
        assert es[i].data < es[i];
        var el2 := UnpackLevel(env, Frame(Index(i), Just(VARVALUE_TYPE)), es[i].data, Just(VARVALUE_TYPE));
        if el2.Thrown? {
          return Thrown(el2.error);
        }
        PrependOne(ret, el2.value, UnpackVarItems(env, es[i + 1..], i + 1));
        ret := ret + [el2.value];
        i := i + 1;
      }
      UnpackVarItemsStep(env, es, i);
      assert ret + [] == ret;
      return Done(ret);
    }

    method UnpackIntMap(env: Env, es: seq<Elem>, t: Option<TypeDef>) returns (r: Outcome<seq<Entry>>)
      modifies this
      ensures Stacked(UnpackIntEntries(env, es, t, []), r, old(fieldName), old(fieldType), fieldName, fieldType)
      ensures r.Done? ==> r.value == UnpackIntEntries(env, es, t, []).value
      decreases es, 0, 0
    {
      var ret: seq<Entry> := [];
      var i := 0;
      NoLevels(fieldName, fieldType);
      assert es[0..] == es;
      while i < |es|
        invariant 0 <= i <= |es|
        invariant fieldName == old(fieldName) && fieldType == old(fieldType)
        invariant UnpackIntEntries(env, es, t, []) == UnpackIntEntries(env, es[i..], t, ret)
      {
        assert es[i..][0] == es[i] && es[i..][1..] == es[i + 1..];
        var n := ItemNumber(es[i].id);
        if n.Err? {
          return Thrown(n.error);
        }
        assert es[i].data < es[i];
        var el2 := UnpackLevel(env, Frame(Index(n.value), t), es[i].data, t);
        if el2.Thrown? {
          return Thrown(el2.error);
        }
        ret := DictSet(ret, PyInt(n.value), el2.value);
        i := i + 1;
      }
      return Done(ret);
    }

    method UnpackStringMap(env: Env, es: seq<Elem>, t: Option<TypeDef>, quoted: bool) returns (r: Outcome<seq<Entry>>)
      modifies this
      ensures Stacked(UnpackStringEntries(env, es, t, quoted, []), r, old(fieldName), old(fieldType), fieldName,
              fieldType)
      ensures r.Done? ==> r.value == UnpackStringEntries(env, es, t, quoted, []).value
      decreases es, 0, 0
    {
      hide Unpack, Names, TypesOf, DictSet;
      var ret: seq<Entry> := [];
      var i := 0;
      assert es[0..] == es;
      while i < |es|
        invariant 0 <= i <= |es|
        invariant fieldName == old(fieldName) && fieldType == old(fieldType)
        invariant UnpackStringEntries(env, es, t, quoted, []) == UnpackStringEntries(env, es[i..], t, quoted, ret)
      {
        assert es[i..][0] == es[i] && es[i..][1..] == es[i + 1..];
        assert es[i].data < es[i];
        var key := NameOf(es[i].id);
        var el2 := UnpackLevel(env, Frame(if quoted then QuotedKey(key) else BareKey(key), t), es[i].data, t);
        if el2.Thrown? {
          return Thrown(el2.error);
        }
        ret := DictSet(ret, Str(key), el2.value);
        i := i + 1;
      }
      return Done(ret);
    }

    method UnpackStructFields(env: Env, es: seq<Elem>, fs: seq<Field>) returns (r: Outcome<seq<Attr>>)
      modifies this
      ensures Stacked(UnpackFields(env, es, fs), r, old(fieldName), old(fieldType), fieldName, fieldType)
      ensures r.Done? ==> r.value == UnpackFields(env, es, fs).value
      decreases es, 0, 0
    {
      hide Unpack, UnpackFields, Names, TypesOf;
      var ret: seq<Attr> := [];
      var i := 0;
      PrependNothing(UnpackFields(env, es, fs));
      assert fs[0..] == fs;
      while i < |fs|
        invariant 0 <= i <= |fs|
        invariant fieldName == old(fieldName) && fieldType == old(fieldType)
        invariant UnpackFields(env, es, fs) == Prepend(ret, UnpackFields(env, es, fs[i..]))
      {
        UnpackFieldsStep(env, es, fs, i);
        var f := Frame(Member(fs[i].name), Just(fs[i].typ));
        var el := FindElement(es, fs[i].name);
        if el.Nothing? {
          PushFieldLevel(f.level, f.typ);
          ThrownInLevel<Py, seq<Attr>>(f, NotFoundError, old(fieldName), old(fieldType));
          return Thrown(NotFoundError);
        }
        FindElementIn(es, fs[i].name);
        assert el.value.data < el.value;
        var el1 := UnpackLevel(env, f, el.value.data, Just(fs[i].typ));
        if el1.Thrown? {
          return Thrown(el1.error);
        }
        PrependOne(ret, Attr(fs[i].name, el1.value), UnpackFields(env, es, fs[i + 1..]));
        ret := ret + [Attr(fs[i].name, el1.value)];
        i := i + 1;
      }
      UnpackFieldsStep(env, es, fs, i);
      assert ret + [] == ret;
      return Done(ret);
    }

    /** `UnpackMessageElement` computes `Unpack`, leaves the field stack as it found it when it returns,
        and when it throws leaves the path of the error on top of it. */
    method UnpackMessageElement(env: Env, d: Data, t: Option<TypeDef>) returns (r: Outcome<Py>)
      modifies this
      ensures Stacked(Unpack(env, d, t), r, old(fieldName), old(fieldType), fieldName, fieldType)
      ensures r.Done? ==> r.value == Unpack(env, d, t).value
      decreases d, if IsVarValue(t) && t.value.container.NoContainer? then 2 else 1, 0
    {
      NoLevels(fieldName, fieldType);
      OneLevelAlways(env, d, t);
      if t.Just? && t.value.base.Void? {
        return Done(None);
      }
      if !d.Nested? && !(IsVarValue(t) && !d.Null?) {
        assert Children(env, d, t) == [];
        return AsOutcome(Unpack(env, d, t));
      }
      if IsVarValue(t) {
        if t.value.container.NoContainer? {
          InferFlat(env, d);
          var v := UnpackMessageElement(env, d, InnerType(d));
          if v.Thrown? {
            return Thrown(v.error);
          }
          var typ := InferType(env, d);
          return if typ.Ok? then Done(VarVal(v.value, typ.value)) else Thrown(typ.error);
        }
        r := UnpackVarContainerElement(env, d);
        return;
      }
      r := UnpackNestedElement(env, d, t);
    }

    method UnpackVarContainerElement(env: Env, d: Data) returns (r: Outcome<Py>)
      modifies this
      ensures Stacked(UnpackVarContainer(env, d), r, old(fieldName), old(fieldType), fieldName, fieldType)
      ensures r.Done? ==> r.value == UnpackVarContainer(env, d).value
      decreases d, 0, 0
    {
      NoLevels(fieldName, fieldType);
      if d.Nested? && d.typ.ListT? {
        var items := UnpackVarListItems(env, d.elems);
        r := if items.Done? then Done(List(items.value)) else Thrown(items.error);
      } else if d.Nested? && d.typ.VectorT? {
        var entries := UnpackIntMap(env, d.elems, Just(VARVALUE_TYPE));
        r := if entries.Done? then Done(Dict(entries.value)) else Thrown(entries.error);
      } else if d.Nested? && d.typ.DictionaryT? {
        var entries := UnpackStringMap(env, d.elems, Just(VARVALUE_TYPE), true);
        r := if entries.Done? then Done(Dict(entries.value)) else Thrown(entries.error);
      } else {
        r := Thrown(DataTypeError);
      }
    }

    method UnpackNestedElement(env: Env, d: Data, t: Option<TypeDef>) returns (r: Outcome<Py>)
      requires d.Nested?
      modifies this
      ensures Stacked(UnpackNested(env, d, t), r, old(fieldName), old(fieldType), fieldName, fieldType)
      ensures r.Done? ==> r.value == UnpackNested(env, d, t).value
      decreases d, 0, 0
    {
      NoLevels(fieldName, fieldType);
      PodsFlat(env, d, t);
      LeavesFlat(env, d, t);
      match d.typ
      case StructureT =>
        if d.typeName !in env.structs {
          return Thrown(ServiceError);
        }
        var attrs := UnpackStructFields(env, d.elems, env.structs[d.typeName]);
        r := if attrs.Done? then Done(Struct(Mangle(d.typeName), attrs.value)) else Thrown(attrs.error);
      case ListT =>
        var items := UnpackListItems(env, d.elems, ElementType(t));
        r := if items.Done? then Done(List(items.value)) else Thrown(items.error);
      case VectorT =>
        var entries := UnpackIntMap(env, d.elems, ElementType(t));
        r := if entries.Done? then Done(Dict(entries.value)) else Thrown(entries.error);
      case DictionaryT =>
        var entries := UnpackStringMap(env, d.elems, ElementType(t), false);
        r := if entries.Done? then Done(Dict(entries.value)) else Thrown(entries.error);
      case MultiDimT => r := AsOutcome(UnpackMultiDimNumbers(d.elems, t));
      case PodT => r := Thrown(DataTypeError);
      case PodArrayT => r := UnpackPodArray(env, d, t);
      case NamedArrayT => r := AsOutcome(UnpackNamedArray(env, d, t));
      case PodMultiDimT => r := AsOutcome(UnpackMultiDimRecords(env, d, t));
      case NamedMultiDimT => r := AsOutcome(UnpackMultiDimRecords(env, d, t));
    }
  }
}
