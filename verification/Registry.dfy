/**
 The component container: components by name, in registration order, with an index by
 type that must stay equal to a linear scan.
 */
module Registry {
  import opened Common

  /** A dynamic type; only pointers matter to the index. */
  datatype Type = Plain(name: string) | Pointer(elem: Type)

  datatype Component = Component(typ: Type, id: nat)

  datatype Error = EmptyName | NilComponent | AlreadyRegistered

  type Names = seq<string>

  type Store = map<string, Component>

  /** Looking up typ finds components of that type and pointers to it. */
  predicate Answers(c: Component, typ: Type) { c.typ == typ || c.typ == Pointer(typ) }

  /** The names whose component answers to typ, in order: the linear scan. */
  function Scan(order: Names, byName: Store, typ: Type): Names
  {
    if order == [] then []
    else
      var rest := Scan(order[1..], byName, typ);
      if order[0] in byName && Answers(byName[order[0]], typ) then [order[0]] + rest else rest
  }

  ghost predicate Distinct(s: Names) { forall i, j :: 0 <= i < j < |s| ==> s[i] != s[j] }

  /** The list without the first occurrence of name. */
  function Without(s: Names, name: string): Names
  {
    if s == [] then [] else if s[0] == name then s[1..] else [s[0]] + Without(s[1..], name)
  }

  lemma {:induction false} ScanMembers(order: Names, byName: Store, typ: Type)
    ensures forall n :: n in Scan(order, byName, typ) <==> n in order && n in byName && Answers(byName[n], typ)
  {
    if order != [] {
      ScanMembers(order[1..], byName, typ);
      assert order == [order[0]] + order[1..];
    }
  }

  /** A new component joins the end of every scan it answers to. */
  lemma {:induction false} ScanAppend(order: Names, byName: Store, name: string, c: Component, typ: Type)
    requires name !in order
    ensures Scan(order + [name], byName[name := c], typ) ==
            Scan(order, byName, typ) + (if Answers(c, typ) then [name] else [])
  {
    if order == [] {
      assert order + [name] == [name];
    } else {
      var head, last := order[0], if Answers(c, typ) then [name] else [];
      ScanAppend(order[1..], byName, name, c, typ);
      assert (order + [name])[1..] == order[1..] + [name];
      assert [head] + (Scan(order[1..], byName, typ) + last) == ([head] + Scan(order[1..], byName, typ)) + last;
    }
  }

  /** A component that goes leaves every scan, and the rest keeps its order. */
  lemma {:induction false} ScanWithout(order: Names, byName: Store, name: string, typ: Type)
    requires Distinct(order)
    ensures Scan(Without(order, name), byName - {name}, typ) == Without(Scan(order, byName, typ), name)
  {
    if order != [] {
      var rest := order[1..];
      ScanMembers(rest, byName, typ);
      if order[0] == name {
        assert name !in rest;
        ScanIgnores(rest, byName, name, typ);
        WithoutAbsent(Scan(rest, byName, typ), name);
      } else {
        ScanWithout(rest, byName, name, typ);
        assert Without(order, name)[1..] == Without(rest, name);
      }
    }
  }

  lemma {:induction false} ScanIgnores(order: Names, byName: Store, name: string, typ: Type)
    requires name !in order
    ensures Scan(order, byName - {name}, typ) == Scan(order, byName, typ)
  {
    if order != [] { ScanIgnores(order[1..], byName, name, typ); }
  }

  lemma {:induction false} WithoutAbsent(s: Names, name: string)
    requires name !in s
    ensures Without(s, name) == s
  {
    if s != [] { WithoutAbsent(s[1..], name); }
  }

  lemma {:induction false} WithoutMembers(s: Names, name: string)
    requires Distinct(s)
    ensures Distinct(Without(s, name)) && forall n :: n in Without(s, name) <==> n in s && n != name
  {
    if s != [] {
      var rest := Without(s[1..], name);
      WithoutMembers(s[1..], name);
      assert s == [s[0]] + s[1..];
      forall i | 0 <= i < |rest| ensures rest[i] != s[0] { assert rest[i] in rest; }
      DistinctCons(s[0], rest);
    }
  }

  lemma DistinctCons(x: string, s: Names)
    requires Distinct(s) && forall i :: 0 <= i < |s| ==> s[i] != x
    ensures Distinct([x] + s)
  {
  }

  /** Delete the first occurrence, as the slice deletions do. */
  lemma WithoutNext(s: Names, i: nat, name: string)
    requires i < |s|
    ensures s[..i] + Without(s[i..], name)
         == if s[i] == name then s[..i] + s[i + 1..] else s[..i + 1] + Without(s[i + 1..], name)
  {
    assert s[i..][1..] == s[i + 1..] && s[..i + 1] == s[..i] + [s[i]];
    var rest := Without(s[i + 1..], name);
    assert s[..i] + ([s[i]] + rest) == (s[..i] + [s[i]]) + rest;
  }

  method RemoveFirst(s: Names, name: string) returns (r: Names)
    ensures r == Without(s, name)
  {
    for i := 0 to |s|
      invariant Without(s, name) == s[..i] + Without(s[i..], name)
    {
      WithoutNext(s, i, name);
      if s[i] == name {
        return s[..i] + s[i + 1..];
      }
    }
    assert s[|s|..] == [] && s[..|s|] == s;
    return s;
  }

  /** An index with name added to the entry for typ. */
  function Enter(index: map<Type, Names>, typ: Type, name: string): map<Type, Names>
  {
    index[typ := (if typ in index then index[typ] else []) + [name]]
  }

  /** An index with name taken out of the entry for typ, and an empty entry dropped. */
  function Leave(index: map<Type, Names>, typ: Type, name: string): map<Type, Names>
  {
    if typ !in index then index
    else
      var left := Without(index[typ], name);
      if left == [] then index - {typ} else index[typ := left]
  }

  function Entry(index: map<Type, Names>, typ: Type): Names { if typ in index then index[typ] else [] }

  /** No entry is empty. */
  ghost predicate Tight(index: map<Type, Names>) { forall t :: t in index ==> index[t] != [] }

  function EnterAll(index: map<Type, Names>, c: Component, name: string): map<Type, Names>
  {
    var once := Enter(index, c.typ, name);
    if c.typ.Pointer? then Enter(once, c.typ.elem, name) else once
  }

  function LeaveAll(index: map<Type, Names>, c: Component, name: string): map<Type, Names>
  {
    var once := Leave(index, c.typ, name);
    if c.typ.Pointer? then Leave(once, c.typ.elem, name) else once
  }

  /** No type is a pointer to itself, so a component has at most two index entries, and they differ. */
  lemma NotOwnPointer(t: Type)
    ensures t != Pointer(t)
  {
    assert t < Pointer(t);
  }

  lemma EnterAllEntry(index: map<Type, Names>, c: Component, name: string, typ: Type)
    requires Tight(index)
    ensures Tight(EnterAll(index, c, name))
    ensures Entry(EnterAll(index, c, name), typ) == Entry(index, typ) + (if Answers(c, typ) then [name] else [])
  {
    if c.typ.Pointer? { NotOwnPointer(c.typ.elem); }
    assert Entry(index, typ) + [] == Entry(index, typ);
  }

  lemma LeaveAllEntry(index: map<Type, Names>, c: Component, name: string, typ: Type)
    requires Tight(index) && (!Answers(c, typ) ==> name !in Entry(index, typ))
    ensures Tight(LeaveAll(index, c, name))
    ensures Entry(LeaveAll(index, c, name), typ) == Without(Entry(index, typ), name)
  {
    if c.typ.Pointer? { NotOwnPointer(c.typ.elem); }
    if !Answers(c, typ) { WithoutAbsent(Entry(index, typ), name); }
  }

  /** One type's entry still is the scan after a component has gone. */
  lemma UnregisterKeepsIndex(order: Names, byName: Store, index: map<Type, Names>, c: Component,
                             name: string, typ: Type)
    requires Distinct(order) && (forall n :: n in order <==> n in byName) && name in byName && byName[name] == c
    requires Tight(index) && Entry(index, typ) == Scan(order, byName, typ)
    ensures Entry(LeaveAll(index, c, name), typ) == Scan(Without(order, name), byName - {name}, typ)
  {
    ScanWithout(order, byName, name, typ);
    ScanMembers(order, byName, typ);
    LeaveAllEntry(index, c, name, typ);
  }

  class Container {
    var byName: Store
    var byType: map<Type, Names>
    var order: Names

    /** The index entry for typ is the scan. */
    ghost predicate Indexed(typ: Type)
      reads this
    {
      Entry(byType, typ) == Scan(order, byName, typ)
    }

    ghost predicate Valid()
      reads this
    {
      && Distinct(order)
      && (forall n :: n in order <==> n in byName)
      && Tight(byType) && (forall typ {:trigger Indexed(typ)} :: Indexed(typ))
    }

    constructor ()
      ensures Valid() && order == []
    {
      byName, byType, order := map[], map[], [];
    }

    method Register(name: string, component: Option<Component>) returns (err: Option<Error>)
      requires Valid()
      modifies this
      ensures Valid()
      ensures err == if name == "" then Some(EmptyName) else if component.None? then Some(NilComponent)
                     else if name in old(byName) then Some(AlreadyRegistered) else None
      ensures err.Some? ==> byName == old(byName) && order == old(order)
      ensures err.None? ==> byName == old(byName)[name := component.value] && order == old(order) + [name]
    {
      if name == "" { return Some(EmptyName); }
      if component.None? { return Some(NilComponent); }
      if name in byName { return Some(AlreadyRegistered); }
      var c := component.value;
      byName := byName[name := c];
      order := order + [name];
      byType := Enter(byType, c.typ, name);
      if c.typ.Pointer? {
        byType := Enter(byType, c.typ.elem, name);
      }
      forall typ
        ensures Indexed(typ)
      {
        assert old(Indexed(typ));
        EnterAllEntry(old(byType), c, name, typ);
        ScanAppend(old(order), old(byName), name, c, typ);
      }
      return None;
    }

    method RemoveFromType(typ: Type, name: string)
      modifies `byType
      ensures byType == Leave(old(byType), typ, name)
    {
      if typ in byType {
        var names := RemoveFirst(byType[typ], name);
        byType := byType[typ := names];
        if |byType[typ]| == 0 {
          byType := byType - {typ};
        }
      }
    }

    method Unregister(name: string) returns (found: bool)
      requires Valid()
      modifies this
      ensures Valid()
      ensures found <==> name in old(byName)
      ensures byName == old(byName) - {name} && order == Without(old(order), name)
    {
      if name !in byName {
        WithoutAbsent(order, name);
        return false;
      }
      var c := byName[name];
      byName := byName - {name};
      order := RemoveFirst(order, name);
      RemoveFromType(c.typ, name);
      if c.typ.Pointer? {
        RemoveFromType(c.typ.elem, name);
      }
      assert byType == LeaveAll(old(byType), c, name);
      WithoutMembers(old(order), name);
      forall typ
        ensures Indexed(typ)
      {
        assert old(Indexed(typ));
        UnregisterKeepsIndex(old(order), old(byName), old(byType), c, name, typ);
      }
      return true;
    }

    /** The first registered component that answers to typ. */
    method GetByType(typ: Type) returns (r: Option<Component>)
      requires Valid()
      ensures r.None? <==> forall n :: n in order ==> !Answers(byName[n], typ)
      ensures r.Some? ==> exists i :: 0 <= i < |order| && byName[order[i]] == r.value && Answers(r.value, typ) &&
                            forall j :: 0 <= j < i ==> !Answers(byName[order[j]], typ)
    {
      assert Indexed(typ);
      ScanMembers(order, byName, typ);
      if typ !in byType || |byType[typ]| == 0 {
        return None;
      }
      ScanHead(order, byName, typ);
      assert byType[typ][0] in order;
      return Some(byName[byType[typ][0]]);
    }

    /** Every component that answers to typ, in registration order. */
    method GetAllByType(typ: Type) returns (r: seq<Component>)
      requires Valid()
      ensures |r| == |Scan(order, byName, typ)|
      ensures forall i :: 0 <= i < |r| ==>
                Scan(order, byName, typ)[i] in byName && r[i] == byName[Scan(order, byName, typ)[i]]
    {
      assert Indexed(typ);
      ScanMembers(order, byName, typ);
      r := [];
      if typ !in byType {
        return;
      }
      var names := byType[typ];
      for i := 0 to |names|
        invariant |r| == i
        invariant forall k :: 0 <= k < i ==> names[k] in byName && r[k] == byName[names[k]]
      {
        assert names[i] in names;
        r := r + [byName[names[i]]];
      }
    }
  }

  /** The head of a scan is the first name that answers. */
  lemma {:induction false} ScanHead(order: Names, byName: Store, typ: Type)
    requires Scan(order, byName, typ) != []
    ensures exists i :: 0 <= i < |order| && order[i] == Scan(order, byName, typ)[0] &&
              forall j :: 0 <= j < i ==> !(order[j] in byName && Answers(byName[order[j]], typ))
  {
    if !(order[0] in byName && Answers(byName[order[0]], typ)) {
      ScanHead(order[1..], byName, typ);
      var i :| 0 <= i < |order[1..]| && order[1..][i] == Scan(order[1..], byName, typ)[0] &&
               forall j :: 0 <= j < i ==> !(order[1..][j] in byName && Answers(byName[order[1..][j]], typ));
      assert order[i + 1] == order[1..][i];
      forall j | 0 <= j < i + 1 ensures !(order[j] in byName && Answers(byName[order[j]], typ)) {
        if j > 0 { assert order[j] == order[1..][j - 1]; }
      }
    }
  }
}
