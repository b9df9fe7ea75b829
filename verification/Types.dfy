/** Field layout of types and linking of field names: src/vm/CatVM.cpp:174-215 and
    src/vm/modules/orders/SetFieldValue.cpp:38-57. Types are numbered; the numbers stand for the
    addresses of the type objects. */
module Types {
  import opened BitSet

  datatype FieldType = Primitive(code: nat) | Defined(typ: nat)
  datatype Field = Field(name: string, typ: FieldType)

  const NONE: int := -1

  /** `parent` is a type or NONE. The last two are filled in by the loader. */
  datatype Type = Type(parent: int, addFields: seq<Field>, allFields: seq<Field>, referenceFields: seq<bv8>)

  ghost predicate WellFormed(types: seq<Type>) {
    forall t :: 0 <= t < |types| ==> types[t].parent == NONE || 0 <= types[t].parent < |types|
  }

  // -------------------------------------------------------- the reference

  /** `chain` leads from `t` along the parents to a type without one. */
  ghost predicate IsChain(types: seq<Type>, t: int, chain: seq<int>)
    decreases chain
  {
    if chain == [] then t == NONE
    else t == chain[0] && 0 <= t < |types| && IsChain(types, types[t].parent, chain[1..])
  }

  predicate IsType(types: seq<Type>, t: int) { 0 <= t < |types| }

  ghost predicate InTable(types: seq<Type>, chain: seq<int>) {
    forall i :: 0 <= i < |chain| ==> IsType(types, chain[i])
  }

  /** The fields along a chain, those of the topmost type first. */
  ghost function Layout(types: seq<Type>, chain: seq<int>): seq<Field>
    requires InTable(types, chain)
  {
    if chain == [] then [] else Layout(types, chain[1..]) + types[chain[0]].addFields
  }

  /** The number of fields that the types above position `k` of a chain add. */
  ghost function Above(types: seq<Type>, chain: seq<int>, k: nat): nat
    requires InTable(types, chain) && k <= |chain|
    decreases |chain| - k
  {
    if k + 1 >= |chain| then 0 else Above(types, chain, k + 1) + |types[chain[k + 1]].addFields|
  }

  /** Field `j` that the `k`-th type of a chain adds stands behind all fields added above it. */
  lemma LayoutAt(types: seq<Type>, chain: seq<int>, k: nat, j: nat)
    requires InTable(types, chain) && k < |chain| && j < |types[chain[k]].addFields|
    ensures |Layout(types, chain)| == Above(types, chain, 0) + |types[chain[0]].addFields|
    ensures Above(types, chain, k) + j < |Layout(types, chain)|
    ensures Layout(types, chain)[Above(types, chain, k) + j] == types[chain[k]].addFields[j]
  {
    LayoutLength(types, chain, k);
    LayoutLength(types, chain, 0);
    assert chain[0..] == chain;
    LayoutGrows(types, chain, k);
    assert Layout(types, chain[k..]) == Layout(types, chain[k..][1..]) + types[chain[k]].addFields;
  }

  lemma {:induction false} LayoutLength(types: seq<Type>, chain: seq<int>, k: nat)
    requires InTable(types, chain) && k < |chain|
    ensures |Layout(types, chain[k..][1..])| == Above(types, chain, k)
    ensures |Layout(types, chain[k..])| == Above(types, chain, k) + |types[chain[k]].addFields|
    decreases |chain| - k
  {
    if k + 1 < |chain| {
      LayoutLength(types, chain, k + 1);
      assert chain[k..][1..] == chain[k + 1..];
    }
  }

  ghost predicate Distinct(fields: seq<Field>) {
    forall i, j :: 0 <= i < j < |fields| ==> fields[i].name != fields[j].name
  }

  lemma {:induction false} ChainMembers(types: seq<Type>, t: int, chain: seq<int>)
    requires IsChain(types, t, chain)
    ensures InTable(types, chain)
    decreases chain
  {
    if chain != [] {
      ChainMembers(types, types[t].parent, chain[1..]);
      forall i | 0 <= i < |chain| ensures IsType(types, chain[i]) {
        if i > 0 { assert chain[i] == chain[1..][i - 1]; }
      }
    }
  }

  lemma {:induction false} ChainUnique(types: seq<Type>, t: int, c: seq<int>, d: seq<int>)
    requires IsChain(types, t, c) && IsChain(types, t, d)
    ensures c == d
    decreases c
  {
    if c != [] && d != [] {
      ChainUnique(types, types[t].parent, c[1..], d[1..]);
      assert c == [c[0]] + c[1..] && d == [d[0]] + d[1..];
    }
  }

  /** The rest of a chain is a chain. */
  lemma {:induction false} ChainSuffix(types: seq<Type>, t: int, chain: seq<int>, i: nat)
    requires IsChain(types, t, chain) && i < |chain|
    ensures IsChain(types, chain[i], chain[i..])
    decreases chain
  {
    if i > 0 {
      ChainSuffix(types, types[t].parent, chain[1..], i - 1);
      assert chain[1..][i - 1..] == chain[i..];
    }
  }

  /** A chain visits no type twice. */
  lemma ChainNoRepeat(types: seq<Type>, t: int, chain: seq<int>, i: nat, j: nat)
    requires IsChain(types, t, chain) && i < j < |chain|
    ensures chain[i] != chain[j]
  {
    ChainSuffix(types, t, chain, i);
    ChainSuffix(types, t, chain, j);
    if chain[i] == chain[j] { ChainUnique(types, chain[i], chain[i..], chain[j..]); }
  }

  // ---------------------------------------------------------- the parents

  /** A walk along the parents, not finished yet, that ends before `current`. */
  ghost predicate IsWalk(types: seq<Type>, t: int, walk: seq<int>, current: int) {
    && (forall i :: 0 <= i < |walk| ==> 0 <= walk[i] < |types|)
    && (if walk == [] then current == t else walk[0] == t && types[walk[|walk| - 1]].parent == current)
    && (forall i :: 0 <= i < |walk| - 1 ==> types[walk[i]].parent == walk[i + 1])
  }

  /** A chain goes on where the walk ends. */
  lemma {:induction false} WalkThenChain(types: seq<Type>, t: int, walk: seq<int>, current: int, rest: seq<int>)
    requires IsWalk(types, t, walk, current) && IsChain(types, current, rest)
    ensures IsChain(types, t, walk + rest)
    decreases walk
  {
    if walk == [] {
      assert walk + rest == rest;
    } else {
      var p := types[t].parent;
      assert IsWalk(types, p, walk[1..], current) by {
        forall i | 0 <= i < |walk[1..]| - 1 ensures types[walk[1..][i]].parent == walk[1..][i + 1] {
          assert types[walk[i + 1]].parent == walk[i + 1 + 1];
        }
        if |walk| > 1 { assert types[walk[0]].parent == walk[0 + 1]; }
      }
      WalkThenChain(types, p, walk[1..], current, rest);
      assert (walk + rest)[1..] == walk[1..] + rest;
    }
  }

  /** Every chain from `t` begins with the walk. */
  lemma {:induction false} ChainFollowsWalk(types: seq<Type>, t: int, walk: seq<int>, current: int, chain: seq<int>)
    requires IsWalk(types, t, walk, current) && IsChain(types, t, chain)
    ensures |walk| <= |chain| && chain[..|walk|] == walk && IsChain(types, current, chain[|walk|..])
    decreases walk
  {
    if walk == [] {
      assert chain[0..] == chain;
    } else {
      var p := types[t].parent;
      assert IsWalk(types, p, walk[1..], current) by {
        forall i | 0 <= i < |walk[1..]| - 1 ensures types[walk[1..][i]].parent == walk[1..][i + 1] {
          assert types[walk[i + 1]].parent == walk[i + 1 + 1];
        }
        if |walk| > 1 { assert types[walk[0]].parent == walk[0 + 1]; }
      }
      ChainFollowsWalk(types, p, walk[1..], current, chain[1..]);
      assert chain[1..][|walk| - 1..] == chain[|walk|..];
      assert walk == [walk[0]] + walk[1..];
      assert chain[..|walk|] == [chain[0]] + chain[1..][..|walk| - 1];
    }
  }

  ghost predicate HasChain(types: seq<Type>, t: int) { exists chain :: IsChain(types, t, chain) }

  /** The parents of a type, itself first (lines 180-192). It fails exactly if the parents run in a circle. */
  method CollectParents(types: seq<Type>, t: int) returns (ok: bool, parents: seq<int>)
    requires WellFormed(types) && 0 <= t < |types|
    ensures ok <==> HasChain(types, t)
    ensures ok ==> IsChain(types, t, parents)
  {
    var current := t;
    var found: set<int> := {};
    ghost var all := set u | 0 <= u < |types| && IsType(types, u);
    parents := [];
    while current != NONE
      invariant current == NONE || 0 <= current < |types|
      invariant IsWalk(types, t, parents, current)
      invariant forall u :: u in found <==> u in parents
      decreases all - found
    {
      if current in found {
        forall chain ensures !IsChain(types, t, chain) { CircleHasNoChain(types, t, parents, current, chain); }
        return false, [];
      }
      found := found + {current};
      parents := parents + [current];
      current := types[current].parent;
    }
    ok := true;
    WalkThenChain(types, t, parents, NONE, []);
    assert parents + [] == parents;
  }

  lemma CircleHasNoChain(types: seq<Type>, t: int, walk: seq<int>, current: int, chain: seq<int>)
    requires IsWalk(types, t, walk, current) && current in walk
    ensures !IsChain(types, t, chain)
  {
    if IsChain(types, t, chain) {
      ChainFollowsWalk(types, t, walk, current, chain);
      var i :| 0 <= i < |walk| && walk[i] == current;
      assert chain[i] == current;
      ChainSuffix(types, t, chain, i);
      ChainUnique(types, current, chain[i..], chain[|walk|..]);
    }
  }

  // ------------------------------------------------------------ the fields

  ghost function Names(fields: seq<Field>): set<string> { set f | f in fields :: f.name }

  /** Fields of one type are appended unless a name is taken (lines 197-203). */
  method AppendFields(fields: seq<Field>, all0: seq<Field>, names0: set<string>)
    returns (ok: bool, all: seq<Field>, names: set<string>)
    requires Distinct(all0) && names0 == Names(all0)
    ensures ok <==> Distinct(all0 + fields)
    ensures ok ==> all == all0 + fields && names == Names(all)
  {
    all, names := all0, names0;
    var i := 0;
    assert all0 == all0 + fields[..0];
    while i < |fields|
      invariant i <= |fields| && all == all0 + fields[..i] && Distinct(all) && names == Names(all)
    {
      var field := fields[i];
      if field.name in names {
        TakenName(all, field, all0 + fields);
        return false, all, names;
      }
      assert fields[..i + 1] == fields[..i] + [field];
      assert all0 + fields[..i + 1] == all + [field];
      names := names + {field.name};
      all := all + [field];
      assert forall n :: n in names <==> n in Names(all);
      assert names == Names(all);
      i := i + 1;
    }
    ok := true;
    assert fields[..|fields|] == fields;
  }

  lemma TakenName(all: seq<Field>, field: Field, whole: seq<Field>)
    requires field.name in Names(all) && all + [field] <= whole
    ensures !Distinct(whole)
  {
    var f :| f in all && f.name == field.name;
    var k :| 0 <= k < |all| && all[k] == f;
    assert (all + [field])[k] == whole[k] && (all + [field])[|all|] == whole[|all|];
    assert whole[k].name == whole[|all|].name;
  }

  /** The fields of a type, inherited ones first, topmost ancestor first. It fails exactly if the
      parents run in a circle or a name occurs twice. */
  method FlattenFields(types: seq<Type>, t: int) returns (ok: bool, all: seq<Field>)
    requires WellFormed(types) && 0 <= t < |types|
    ensures ok <==> !Refused(types, t)
    ensures ok ==> exists chain :: IsLayout(types, t, chain, all) && Distinct(all)
  {
    var chained, parents := CollectParents(types, t);
    if !chained { return false, []; }
    ChainMembers(types, t, parents);
    all := [];
    var names: set<string> := {};
    var i := |parents|;
    while i > 0
      invariant 0 <= i <= |parents|
      invariant InTable(types, parents[i..])
      invariant all == Layout(types, parents[i..]) && Distinct(all) && names == Names(all)
    {
      i := i - 1;
      assert IsType(types, parents[i]);
      assert forall j :: 0 <= j < |parents[i..]| ==> parents[i..][j] == parents[i + j];
      assert parents[i..] == [parents[i]] + parents[i + 1..];
      assert parents[i..][1..] == parents[i + 1..];
      var free;
      ghost var below := all;
      free, all, names := AppendFields(types[parents[i]].addFields, all, names);
      if !free {
        LayoutGrows(types, parents, i);
        assert IsLayout(types, t, parents, Layout(types, parents));
        NotDistinctLater(Layout(types, parents[i..]), Layout(types, parents));
        return false, all;
      }
    }
    ok := true;
    assert parents[0..] == parents;
    assert IsLayout(types, t, parents, all);
    forall c, whole | IsLayout(types, t, c, whole) ensures Distinct(whole) { ChainUnique(types, t, parents, c); }
  }

  ghost predicate IsLayout(types: seq<Type>, t: int, chain: seq<int>, all: seq<Field>) {
    IsChain(types, t, chain) && InTable(types, chain) && all == Layout(types, chain)
  }

  /** The layout of the rest of a chain is a beginning of the whole layout. */
  lemma {:induction false} LayoutGrows(types: seq<Type>, chain: seq<int>, i: nat)
    requires i <= |chain| && InTable(types, chain)
    ensures Layout(types, chain[i..]) <= Layout(types, chain)
    decreases i
  {
    if i > 0 {
      LayoutGrows(types, chain, i - 1);
      assert chain[i - 1..][1..] == chain[i..];
      assert chain[i - 1..][0] == chain[i - 1];
    } else {
      assert chain[0..] == chain;
    }
  }

  lemma NotDistinctLater(a: seq<Field>, b: seq<Field>)
    requires a <= b && !Distinct(a)
    ensures !Distinct(b)
  {
    var i, j :| 0 <= i < j < |a| && a[i].name == a[j].name;
    assert b[i] == a[i] && b[j] == a[j];
  }

  // -------------------------------------------------------- the flag bits

  ghost predicate BitsAgree(bits: seq<bv8>, fields: seq<Field>) {
    && |bits| == |fields| / 8 + 1
    && forall i: nat :: i < |fields| ==> (GetFlag(bits, i) <==> fields[i].typ.Defined?)
  }

  /** Flags for the fields that hold references (lines 206-213). */
  method ReferenceBits(fields: seq<Field>) returns (bits: seq<bv8>)
    ensures BitsAgree(bits, fields)
    ensures forall i: nat :: |fields| <= i && i / 8 < |bits| ==> !GetFlag(bits, i)
  {
    var bytes := CreateBitset(|fields|);
    var i := 0;
    while i < |fields|
      invariant i <= |fields| && bytes.Length == |fields| / 8 + 1 && fresh(bytes)
      invariant forall j: nat :: j / 8 < bytes.Length ==> (GetFlag(bytes[..], j) <==> j < i && fields[j].typ.Defined?)
    {
      if fields[i].typ.Defined? {
        SetFlag(bytes, i, true);
      }
      i := i + 1;
    }
    bits := bytes[..];
  }

  // -------------------------------------------------------------- all types

  /** The loader has finished with type `t`. */
  ghost predicate Finished(types: seq<Type>, t: int) {
    && 0 <= t < |types|
    && (exists chain :: IsLayout(types, t, chain, types[t].allFields))
    && Distinct(types[t].allFields)
    && BitsAgree(types[t].referenceFields, types[t].allFields)
  }

  class TypeTable {
    var types: seq<Type>

    /** The third pass of load_module (lines 174-215). */
    method LayOut(order: seq<int>) returns (ok: bool)
      requires WellFormed(types) && InTable(types, order)
      modifies this
      ensures WellFormed(types) && SameShape(old(types), types)
      ensures ok ==> forall t :: t in order ==> Finished(types, t)
      ensures forall t :: 0 <= t < |types| && t !in order ==> types[t] == old(types)[t]
      ensures ok <==> forall t :: t in order ==> !Refused(old(types), t)
    {
      var k := 0;
      while k < |order|
        invariant k <= |order| && WellFormed(types) && SameShape(old(types), types)
        invariant forall j :: 0 <= j < k ==> Finished(types, order[j])
        invariant forall t :: 0 <= t < |types| && t !in order ==> types[t] == old(types)[t]
      {
        var t := order[k];
        var laid, all := FlattenFields(types, t);
        if !laid {
          RefusedBefore(old(types), types, t);
          assert t in order;
          return false;
        }
        var bits := ReferenceBits(all);
        ghost var before := types;
        types := types[t := types[t].(allFields := all, referenceFields := bits)];
        ghost var chain :| IsLayout(before, t, chain, all);
        SameLayout(before, types, t, chain, all);
        assert Finished(types, t);
        forall j | 0 <= j < k ensures Finished(types, order[j]) { StaysFinished(before, types, t, order[j]); }
        k := k + 1;
      }
      ok := true;
      forall t | t in order ensures !Refused(old(types), t) {
        FinishedNotRefused(types, t);
        if Refused(old(types), t) { RefusedBefore(types, old(types), t); }
      }
    }
  }

  /** Parents and added fields are the same. */
  ghost predicate SameShape(types: seq<Type>, types': seq<Type>) {
    |types'| == |types| && forall t :: 0 <= t < |types| ==>
          types'[t].parent == types[t].parent && types'[t].addFields == types[t].addFields
  }

  /** The parents of `t` run in a circle, or two of its fields have the same name. */
  ghost predicate Refused(types: seq<Type>, t: int) {
    !HasChain(types, t) || exists chain, whole :: IsLayout(types, t, chain, whole) && !Distinct(whole)
  }

  lemma {:induction false} SameChain(types: seq<Type>, types': seq<Type>, t: int, chain: seq<int>)
    requires SameShape(types, types') && IsChain(types, t, chain)
    ensures IsChain(types', t, chain)
    decreases chain
  {
    if chain != [] { SameChain(types, types', types[t].parent, chain[1..]); }
  }

  lemma {:induction false} SameLayoutOf(types: seq<Type>, types': seq<Type>, chain: seq<int>)
    requires SameShape(types, types') && InTable(types, chain)
    ensures Layout(types', chain) == Layout(types, chain)
  {
    if chain != [] { SameLayoutOf(types, types', chain[1..]); }
  }

  lemma SameLayout(types: seq<Type>, types': seq<Type>, t: int, chain: seq<int>, all: seq<Field>)
    requires SameShape(types, types') && IsLayout(types, t, chain, all)
    ensures IsLayout(types', t, chain, all)
  {
    SameChain(types, types', t, chain);
    SameLayoutOf(types, types', chain);
  }

  lemma RefusedBefore(types: seq<Type>, types': seq<Type>, t: int)
    requires SameShape(types, types') && Refused(types', t)
    ensures Refused(types, t)
  {
    if chain :| IsChain(types, t, chain) {
      SameChain(types, types', t, chain);
      var c, whole :| IsLayout(types', t, c, whole) && !Distinct(whole);
      SameLayout(types', types, t, c, whole);
    }
  }

  /** A type that was laid out had no reason to be refused. */
  lemma FinishedNotRefused(types: seq<Type>, t: int)
    requires Finished(types, t)
    ensures !Refused(types, t)
  {
    var chain :| IsLayout(types, t, chain, types[t].allFields);
    forall c, whole | IsLayout(types, t, c, whole) ensures Distinct(whole) { ChainUnique(types, t, chain, c); }
  }

  lemma StaysFinished(types: seq<Type>, types': seq<Type>, t: int, u: int)
    requires SameShape(types, types') && Finished(types, u) && (u == t ==> Finished(types', t))
    requires forall v :: 0 <= v < |types| && v != t ==> types'[v] == types[v]
    ensures Finished(types', u)
  {
    if u != t {
      var chain :| IsLayout(types, u, chain, types[u].allFields);
      SameLayout(types, types', u, chain, types[u].allFields);
    }
  }

  // ---------------------------------------------------------------- linking

  /** `a` is `t` or an ancestor of `t`. */
  ghost predicate Ancestor(types: seq<Type>, a: int, t: int) {
    exists chain :: IsChain(types, t, chain) && a in chain
  }

  /** The layout of an ancestor is the beginning of the layout of every descendant. */
  lemma AncestorPrefix(types: seq<Type>, a: int, t: int)
    requires Finished(types, a) && Finished(types, t) && Ancestor(types, a, t)
    ensures types[a].allFields <= types[t].allFields
  {
    var chain :| IsChain(types, t, chain) && a in chain;
    var c :| IsLayout(types, t, c, types[t].allFields);
    ChainUnique(types, t, chain, c);
    var i :| 0 <= i < |chain| && chain[i] == a;
    ChainSuffix(types, t, chain, i);
    var d :| IsLayout(types, a, d, types[a].allFields);
    ChainUnique(types, a, chain[i..], d);
    LayoutGrows(types, chain, i);
  }

  class SetObjectFieldOwnership {
    var fieldName: string
    var fieldIndex: nat

    /** SetObjectFieldOwnership::link against the fields of the static type. */
    method Link(fields: seq<Field>)
      modifies this`fieldIndex
      ensures fieldName != "" && fieldName in Names(fields) ==>
                fieldIndex < |fields| && fields[fieldIndex].name == fieldName && forall j :: 0 <= j < fieldIndex ==>
                      fields[j].name != fieldName
      ensures fieldName == "" || fieldName !in Names(fields) ==> fieldIndex == old(fieldIndex)
    {
      if fieldName != "" {
        var i := 0;
        while i < |fields|
          invariant i <= |fields| && fieldIndex == old(fieldIndex)
          invariant forall j :: 0 <= j < i ==> fields[j].name != fieldName
        {
          if fields[i].name == fieldName {
            fieldIndex := i;
            assert fields[i] in fields;
            return;
          }
          i := i + 1;
        }
        assert forall f :: f in fields ==> f.name != fieldName;
      }
    }
  }

  /** An index linked by name against a static type names, in every instance of a subtype, the one field
      of that name, of the same type and with the same reference flag. */
  lemma LinkedIndexValid(types: seq<Type>, a: int, t: int, name: string, index: nat)
    requires Finished(types, a) && Finished(types, t) && Ancestor(types, a, t)
    requires index < |types[a].allFields| && types[a].allFields[index].name == name
    ensures index < |types[t].allFields| && types[t].allFields[index] == types[a].allFields[index]
    ensures forall j :: 0 <= j < |types[t].allFields| ==> (types[t].allFields[j].name == name <==> j == index)
    ensures GetFlag(types[t].referenceFields, index) <==> GetFlag(types[a].referenceFields, index)
  {
    AncestorPrefix(types, a, t);
  }
}
