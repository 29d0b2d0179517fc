/** Overriding the environment of a container. */
module EnvVars {
  import opened Wrappers

  /** corev1.EnvVar, with a value or a reference; an override replaces the whole entry. */
  datatype EnvVar = EnvVar(name: string, value: string, valueFrom: Option<string>)

  /** The last index of a name, or -1. */
  function LastIndex(xs: seq<EnvVar>, name: string): (i: int)
    ensures -1 <= i < |xs|
  {
    if xs == [] then -1
    else if xs[|xs| - 1].name == name then |xs| - 1
    else LastIndex(xs[..|xs| - 1], name)
  }

  /** What a container sees for a name: of several entries the last wins. */
  function Seen(xs: seq<EnvVar>, name: string): Option<EnvVar> {
    var i := LastIndex(xs, name);
    if i < 0 then None else Some(xs[i])
  }

  /** The names that overrides add, in the order of their first occurrence. */
  function NewNames(existing: seq<EnvVar>, overrides: seq<EnvVar>): seq<string> {
    if overrides == [] then []
    else
      var r := NewNames(existing, overrides[..|overrides| - 1]);
      var n := overrides[|overrides| - 1].name;
      if LastIndex(existing, n) >= 0 || n in r then r else r + [n]
  }

  /** An entry of the existing list: overridden when it is the one seen for its name. */
  function Slot(existing: seq<EnvVar>, overrides: seq<EnvVar>, i: nat): EnvVar
    requires i < |existing|
  {
    var n := existing[i].name;
    if LastIndex(existing, n) == i then Override(overrides, n, existing[i]) else existing[i]
  }

  function Override(overrides: seq<EnvVar>, n: string, otherwise: EnvVar): EnvVar {
    if Seen(overrides, n).Some? then Seen(overrides, n).value else otherwise
  }

  function Slots(existing: seq<EnvVar>, overrides: seq<EnvVar>): seq<EnvVar> {
    seq(|existing|, i requires 0 <= i < |existing| => Slot(existing, overrides, i))
  }

  /** The union: every existing entry in its place, then every new name once. */
  function Union(existing: seq<EnvVar>, overrides: seq<EnvVar>): seq<EnvVar> {
    var names := NewNames(existing, overrides);
    Slots(existing, overrides) +
    seq(|names|, j requires 0 <= j < |names| => Override(overrides, names[j], EnvVar(names[j], "", None)))
  }

  ghost predicate Indexes(indexMap: map<string, int>, xs: seq<EnvVar>) {
    forall n {:trigger n in indexMap} ::
      (n in indexMap <==> LastIndex(xs, n) >= 0) && (n in indexMap ==> indexMap[n] == LastIndex(xs, n))
  }

  /** A slice: the first places of a backing array, which other slices may share. */
  datatype Slice = Slice(backing: array<EnvVar>, len: nat)

  ghost predicate InBounds(s: Slice) {
    s.len <= s.backing.Length
  }

  ghost function Contents(s: Slice): seq<EnvVar>
    requires InBounds(s)
    reads s.backing
  {
    s.backing[..s.len]
  }

  /** append: in the backing array while it has room, otherwise in a larger copy. */
  method Append(s: Slice, x: EnvVar) returns (t: Slice)
    requires InBounds(s)
    modifies s.backing
    ensures InBounds(t) && t.len == s.len + 1 && Contents(t) == old(Contents(s)) + [x]
    ensures Contents(s) == old(Contents(s))
    ensures if s.len < s.backing.Length then t.backing == s.backing else fresh(t.backing)
  {
    if s.len < s.backing.Length {
      s.backing[s.len] := x;
      return Slice(s.backing, s.len + 1);
    }
    var room: nat := *;
    var a := s.backing;
    var larger := new EnvVar[s.len + 1 + if room > 0 then room else 0](
      i requires 0 <= i reads a => if i < a.Length then a[i] else x);
    t := Slice(larger, s.len + 1);
    assert Contents(t) == s.backing[..s.len] + [x];
  }

  /** One pass over the overrides with an index of the names so far. The result is the union; the caller's own
      slots hold the merge as it stood when the list first had to move, which is the whole merge if it never did. */
  method MergeEnvVars(existing: Slice, overrides: seq<EnvVar>) returns (merged: Slice)
    requires InBounds(existing)
    modifies existing.backing
    ensures InBounds(merged) && Contents(merged) == Union(old(Contents(existing)), overrides)
    ensures exists p :: 0 <= p <= |overrides|
                        && Contents(existing) == Slots(old(Contents(existing)), overrides[..p])
                        && (p == |overrides| || fresh(merged.backing))
    ensures NewNames(old(Contents(existing)), overrides) == [] ==> merged == existing
  {
    ghost var before, p := Contents(existing), 0;
    var indexMap := IndexNames(existing);
    merged := existing;
    UnionOfNothing(before);
    UnionStarts(before, []);
    assert overrides[..0] == [];
    for i := 0 to |overrides|
      invariant InBounds(merged) && Contents(merged) == Union(before, overrides[..i])
      invariant Indexes(indexMap, Contents(merged))
      invariant if merged.backing == existing.backing then p == i else fresh(merged.backing) && 0 <= p < i
      invariant Contents(existing) == Slots(before, overrides[..p])
      invariant existing.len <= merged.len && (merged.len == existing.len ==> merged == existing)
    {
      assert overrides[..i + 1] == overrides[..i] + [overrides[i]];
      merged, indexMap := MergeOne(merged, overrides[i], indexMap, before, overrides[..i]);
      if merged.backing == existing.backing {
        p := i + 1;
        assert Contents(existing) == Contents(merged)[..existing.len];
        UnionStarts(before, overrides[..i + 1]);
      }
    }
    assert overrides[..|overrides|] == overrides;
    UnionStarts(before, overrides);
  }

  lemma UnionStarts(existing: seq<EnvVar>, overrides: seq<EnvVar>)
    ensures var u := Union(existing, overrides);
            |u| == |existing| + |NewNames(existing, overrides)| && u[..|existing|] == Slots(existing, overrides)
  {
  }

  /** One override: it replaces the entry the index finds, in place, or is appended. */
  method MergeOne(
    merged: Slice, o: EnvVar, indexMap: map<string, int>, ghost before: seq<EnvVar>, ghost done: seq<EnvVar>)
    returns (next: Slice, nextMap: map<string, int>)
    requires InBounds(merged) && Contents(merged) == Union(before, done) && Indexes(indexMap, Contents(merged))
    modifies merged.backing
    ensures InBounds(next) && Contents(next) == Union(before, done + [o]) && Indexes(nextMap, Contents(next))
    ensures merged.len <= next.len && (next.len == merged.len ==> next == merged)
    ensures next.backing == merged.backing || (fresh(next.backing) && Contents(merged) == old(Contents(merged)))
  {
    ghost var was := Contents(merged);
    MergeStep(before, done, o, indexMap);
    nextMap := indexMap;
    if o.name in indexMap {
      merged.backing[indexMap[o.name]] := o;
      next := merged;
      assert Contents(next) == was[indexMap[o.name] := o];
    } else {
      next := Append(merged, o);
      nextMap := nextMap[o.name := next.len - 1];
    }
  }

  method IndexNames(existing: Slice) returns (indexMap: map<string, int>)
    requires InBounds(existing)
    ensures Indexes(indexMap, Contents(existing))
  {
    indexMap := map[];
    ghost var xs := Contents(existing);
    for i := 0 to existing.len
      invariant Indexes(indexMap, xs[..i])
    {
      assert xs[..i + 1] == xs[..i] + [xs[i]];
      AppendIndex(xs[..i], xs[i]);
      indexMap := indexMap[existing.backing[i].name := i];
    }
    assert xs[..|xs|] == xs;
  }

  // ---------------------------------------------------------------- last indices

  lemma {:induction false} LastIndexIs(xs: seq<EnvVar>, n: string)
    ensures var i := LastIndex(xs, n);
            && (i >= 0 ==> xs[i].name == n)
            && (forall j :: i < j < |xs| ==> xs[j].name != n)
    decreases |xs|
  {
    if xs != [] {
      var init := xs[..|xs| - 1];
      LastIndexIs(init, n);
      assert forall j :: 0 <= j < |init| ==> xs[j] == init[j];
    }
  }

  lemma {:induction false} LastIndexUnique(xs: seq<EnvVar>, n: string, i: int)
    requires -1 <= i < |xs| && (i >= 0 ==> xs[i].name == n)
    requires forall j :: i < j < |xs| ==> xs[j].name != n
    ensures LastIndex(xs, n) == i
    decreases |xs|
  {
    if i < |xs| - 1 {
      LastIndexUnique(xs[..|xs| - 1], n, i);
    }
  }

  lemma AppendIndex(xs: seq<EnvVar>, o: EnvVar)
    ensures forall n :: LastIndex(xs + [o], n) == if n == o.name then |xs| else LastIndex(xs, n)
  {
    assert (xs + [o])[..|xs|] == xs;
  }

  lemma ReplaceKeepsIndex(xs: seq<EnvVar>, i: nat, o: EnvVar)
    requires i < |xs| && xs[i].name == o.name
    ensures forall n :: LastIndex(xs[i := o], n) == LastIndex(xs, n)
  {
    forall n
      ensures LastIndex(xs[i := o], n) == LastIndex(xs, n)
    {
      LastIndexIs(xs, n);
      LastIndexUnique(xs[i := o], n, LastIndex(xs, n));
    }
  }

  /** The index map after one override, which replaces the entry it finds or is appended. */
  lemma IndexStep(indexMap: map<string, int>, xs: seq<EnvVar>, o: EnvVar)
    requires Indexes(indexMap, xs)
    ensures o.name in indexMap ==>
              indexMap[o.name] == LastIndex(xs, o.name) >= 0 && Indexes(indexMap, xs[indexMap[o.name] := o])
    ensures o.name !in indexMap ==> LastIndex(xs, o.name) < 0 && Indexes(indexMap[o.name := |xs|], xs + [o])
  {
    if o.name in indexMap {
      LastIndexIs(xs, o.name);
      ReplaceKeepsIndex(xs, indexMap[o.name], o);
    } else {
      AppendIndex(xs, o);
    }
  }

  // ---------------------------------------------------------------- the union

  lemma {:induction false} NewNamesAre(existing: seq<EnvVar>, overrides: seq<EnvVar>, n: string)
    ensures n in NewNames(existing, overrides) <==> LastIndex(overrides, n) >= 0 && LastIndex(existing, n) < 0
    decreases |overrides|
  {
    if overrides != [] {
      NewNamesAre(existing, overrides[..|overrides| - 1], n);
    }
  }

  predicate Distinct(names: seq<string>) {
    forall i, j :: 0 <= i < j < |names| ==> names[i] != names[j]
  }

  lemma {:induction false} NewNamesDistinct(existing: seq<EnvVar>, overrides: seq<EnvVar>)
    ensures Distinct(NewNames(existing, overrides))
    decreases |overrides|
  {
    if overrides != [] {
      var before, n := NewNames(existing, overrides[..|overrides| - 1]), overrides[|overrides| - 1].name;
      NewNamesDistinct(existing, overrides[..|overrides| - 1]);
      var r := NewNames(existing, overrides);
      assert r == before || (r == before + [n] && n !in before);
      forall i, j | 0 <= i < j < |r|
        ensures r[i] != r[j]
      {
        assert before[i] in before;
      }
    }
  }

  lemma OverrideName(overrides: seq<EnvVar>, n: string, otherwise: EnvVar)
    requires otherwise.name == n
    ensures Override(overrides, n, otherwise).name == n
  {
    LastIndexIs(overrides, n);
  }

  /** The names of the union are those of the existing list, then the new ones. */
  lemma UnionNames(existing: seq<EnvVar>, overrides: seq<EnvVar>)
    ensures var u, names := Union(existing, overrides), NewNames(existing, overrides);
            && |u| == |existing| + |names|
            && (forall i :: 0 <= i < |existing| ==> u[i].name == existing[i].name)
            && (forall j :: |existing| <= j < |u| ==> u[j].name == names[j - |existing|])
  {
    var u, names := Union(existing, overrides), NewNames(existing, overrides);
    forall i | 0 <= i < |existing|
      ensures u[i].name == existing[i].name
    {
      OverrideName(overrides, existing[i].name, existing[i]);
    }
    forall j | |existing| <= j < |u|
      ensures u[j].name == names[j - |existing|]
    {
      var n := names[j - |existing|];
      OverrideName(overrides, n, EnvVar(n, "", None));
    }
  }

  lemma UnionOfNothing(existing: seq<EnvVar>)
    ensures Union(existing, []) == existing
  {
  }

  /** A name that the existing list has is seen in its old place. */
  lemma UnionIndexOld(existing: seq<EnvVar>, overrides: seq<EnvVar>, n: string)
    requires LastIndex(existing, n) >= 0
    ensures LastIndex(Union(existing, overrides), n) == LastIndex(existing, n)
  {
    var u, names := Union(existing, overrides), NewNames(existing, overrides);
    UnionNames(existing, overrides);
    LastIndexIs(existing, n);
    NewNamesAre(existing, overrides, n);
    forall j | LastIndex(existing, n) < j < |u|
      ensures u[j].name != n
    {
      if j >= |existing| {
        assert names[j - |existing|] in names;
      }
    }
    LastIndexUnique(u, n, LastIndex(existing, n));
  }

  /** A name it does not have is seen among the new names, or nowhere. */
  lemma UnionIndexNew(existing: seq<EnvVar>, overrides: seq<EnvVar>, n: string)
    requires LastIndex(existing, n) < 0
    ensures var u, names := Union(existing, overrides), NewNames(existing, overrides);
            && (n !in names ==> LastIndex(u, n) < 0)
            && (forall j :: 0 <= j < |names| && names[j] == n ==> LastIndex(u, n) == |existing| + j)
  {
    var u, names := Union(existing, overrides), NewNames(existing, overrides);
    UnionNames(existing, overrides);
    LastIndexIs(existing, n);
    if n !in names {
      LastIndexUnique(u, n, -1);
    } else {
      NewNamesDistinct(existing, overrides);
      var j :| 0 <= j < |names| && names[j] == n;
      LastIndexUnique(u, n, |existing| + j);
    }
  }

  /** One more override replaces the entry seen, or adds one at the end. */
  lemma UnionStep(existing: seq<EnvVar>, overrides: seq<EnvVar>, o: EnvVar)
    ensures var u, i := Union(existing, overrides), LastIndex(Union(existing, overrides), o.name);
            Union(existing, overrides + [o]) == if i >= 0 then u[i := o] else u + [o]
  {
    AppendIndex(overrides, o);
    assert (overrides + [o])[..|overrides|] == overrides;
    if LastIndex(existing, o.name) >= 0 {
      UnionIndexOld(existing, overrides, o.name);
      NewNamesAre(existing, overrides, o.name);
      StepOld(existing, overrides, o);
    } else {
      UnionIndexNew(existing, overrides, o.name);
      StepNew(existing, overrides, o);
    }
  }

  /** The same step with the index map, which finds the entry. */
  lemma MergeStep(existing: seq<EnvVar>, overrides: seq<EnvVar>, o: EnvVar, indexMap: map<string, int>)
    requires Indexes(indexMap, Union(existing, overrides))
    ensures var u, v := Union(existing, overrides), Union(existing, overrides + [o]);
            if o.name in indexMap
            then 0 <= indexMap[o.name] < |u| && v == u[indexMap[o.name] := o] && Indexes(indexMap, v)
            else v == u + [o] && Indexes(indexMap[o.name := |u|], v)
  {
    UnionStep(existing, overrides, o);
    IndexStep(indexMap, Union(existing, overrides), o);
  }

  lemma OverrideStep(overrides: seq<EnvVar>, o: EnvVar, n: string, otherwise: EnvVar)
    ensures Override(overrides + [o], n, otherwise) == if n == o.name then o else Override(overrides, n, otherwise)
  {
    AppendIndex(overrides, o);
  }

  lemma StepOld(existing: seq<EnvVar>, overrides: seq<EnvVar>, o: EnvVar)
    requires LastIndex(existing, o.name) >= 0
    ensures Union(existing, overrides + [o]) == Union(existing, overrides)[LastIndex(existing, o.name) := o]
  {
    var names, i := NewNames(existing, overrides), LastIndex(existing, o.name);
    assert (overrides + [o])[..|overrides|] == overrides;
    LastIndexIs(existing, o.name);
    NewNamesAre(existing, overrides, o.name);
    var v, w := Union(existing, overrides + [o]), Union(existing, overrides)[i := o];
    forall k | 0 <= k < |v|
      ensures v[k] == w[k]
    {
      if k < |existing| {
        OverrideStep(overrides, o, existing[k].name, existing[k]);
      } else {
        var n := names[k - |existing|];
        OverrideStep(overrides, o, n, EnvVar(n, "", None));
      }
    }
  }

  lemma StepNew(existing: seq<EnvVar>, overrides: seq<EnvVar>, o: EnvVar)
    requires LastIndex(existing, o.name) < 0
    ensures var u, names := Union(existing, overrides), NewNames(existing, overrides);
            && (o.name !in names ==> Union(existing, overrides + [o]) == u + [o])
            && (forall j :: 0 <= j < |names| && names[j] == o.name
                  ==> Union(existing, overrides + [o]) == u[|existing| + j := o])
  {
    var u, names := Union(existing, overrides), NewNames(existing, overrides);
    assert (overrides + [o])[..|overrides|] == overrides;
    LastIndexIs(existing, o.name);
    NewNamesDistinct(existing, overrides);
    var v := Union(existing, overrides + [o]);
    forall k | 0 <= k < |u|
      ensures v[k] == if k >= |existing| && names[k - |existing|] == o.name then o else u[k]
    {
      if k < |existing| {
        OverrideStep(overrides, o, existing[k].name, existing[k]);
      } else {
        var n := names[k - |existing|];
        OverrideStep(overrides, o, n, EnvVar(n, "", None));
      }
    }
    if o.name !in names {
      OverrideStep(overrides, o, o.name, EnvVar(o.name, "", None));
      assert v == u + [o];
    }
    forall j | 0 <= j < |names| && names[j] == o.name
      ensures v == u[|existing| + j := o]
    {
    }
  }

  // ---------------------------------------------------------------- what merging promises

  /** Under last-wins lookup the merge is the right-biased union. */
  lemma MergeIsUnion(existing: seq<EnvVar>, overrides: seq<EnvVar>, n: string)
    ensures Seen(Union(existing, overrides), n)
         == if Seen(overrides, n).Some? then Seen(overrides, n) else Seen(existing, n)
  {
    NewNamesAre(existing, overrides, n);
    if LastIndex(existing, n) >= 0 {
      UnionIndexOld(existing, overrides, n);
      LastIndexIs(existing, n);
    } else {
      UnionIndexNew(existing, overrides, n);
      var names := NewNames(existing, overrides);
      if n in names {
        var j :| 0 <= j < |names| && names[j] == n;
      }
    }
  }

  /** Existing names keep their places, and no name occurs more often than it did, new ones once. */
  lemma MergeKeepsOrder(existing: seq<EnvVar>, overrides: seq<EnvVar>)
    ensures var u := Union(existing, overrides);
            && |u| >= |existing|
            && (forall i :: 0 <= i < |existing| ==> u[i].name == existing[i].name)
            && (forall i, j :: 0 <= i < j < |u| && u[i].name == u[j].name ==> j < |existing|)
  {
    var u, names := Union(existing, overrides), NewNames(existing, overrides);
    UnionNames(existing, overrides);
    NewNamesDistinct(existing, overrides);
    forall i, j | 0 <= i < j < |u| && |existing| <= j
      ensures u[i].name != u[j].name
    {
      if i < |existing| {
        var n := names[j - |existing|];
        NewNamesAre(existing, overrides, n);
        LastIndexIs(existing, n);
      }
    }
  }

  /** Appended entries come in the order in which their names first occur among the overrides. */
  lemma {:induction false} NewNamesFirstOccurrence(existing: seq<EnvVar>, overrides: seq<EnvVar>, i: nat, j: nat)
    requires i < j < |NewNames(existing, overrides)|
    ensures var names := NewNames(existing, overrides);
            exists p :: 0 <= p < |overrides| && overrides[p].name == names[i]
                        && forall q :: 0 <= q <= p ==> overrides[q].name != names[j]
    decreases |overrides|
  {
    var init := overrides[..|overrides| - 1];
    var before, names := NewNames(existing, init), NewNames(existing, overrides);
    if j < |before| {
      NewNamesFirstOccurrence(existing, init, i, j);
      var p :| 0 <= p < |init| && init[p].name == before[i] && forall q :: 0 <= q <= p ==> init[q].name != before[j];
      assert overrides[p].name == names[i] && forall q :: 0 <= q <= p ==> overrides[q] == init[q];
    } else {
      var p := LastIndex(init, names[i]);
      NewNamesAre(existing, init, names[i]);
      NewNamesAre(existing, init, names[j]);
      assert names[i] in before;
      LastIndexIs(init, names[i]);
      LastIndexIs(init, names[j]);
      assert overrides[p].name == names[i] && forall q :: 0 <= q <= p ==> overrides[q] == init[q];
    }
  }

  /** Merging the same overrides again changes nothing. */
  lemma MergeIdempotent(existing: seq<EnvVar>, overrides: seq<EnvVar>)
    ensures var u := Union(existing, overrides);
            Union(u, overrides) == u
  {
    var u := Union(existing, overrides);
    NothingNew(existing, overrides);
    forall k | 0 <= k < |u|
      ensures Slot(u, overrides, k) == u[k]
    {
      MergeIsUnion(existing, overrides, u[k].name);
    }
  }

  lemma NothingNew(existing: seq<EnvVar>, overrides: seq<EnvVar>)
    ensures NewNames(Union(existing, overrides), overrides) == []
  {
    var u := Union(existing, overrides);
    if NewNames(u, overrides) != [] {
      var n := NewNames(u, overrides)[0];
      MergeIsUnion(existing, overrides, n);
      NewNamesAre(u, overrides, n);
    }
  }
}
