/** Materialising a host's ordered translations as internal copies, and pruning the copies that are no
    longer wanted. */
module TranslationResolution {
  import opened Wrappers
  import opened Ordering
  import opened Translations

  datatype HostRef = HostRef(name: string, uid: string)

  /** A stored copy. One with finalizers stays, terminating, when it is deleted. */
  datatype Copy = Copy(
    hostRef: string, controller: Option<string>, deleting: bool, finalizers: bool, generation: nat, spec: Spec)

  /** The internal translations of the host's namespace, by name. */
  type Store = map<string, Copy>

  type Attributes = map<string, string>

  const GENERATION_SUFFIX := ".translation.generation"

  function CopyName(host: HostRef, name: string): string {
    host.name + "-" + name
  }

  function CopyNames(host: HostRef, xs: seq<Source>): set<string> {
    set s | s in xs :: CopyName(host, s.name)
  }

  /** SetControllerReference refuses an object that another owner controls. */
  predicate OwnedByOther(store: Store, host: HostRef, n: string) {
    n in store && store[n].controller.Some? && store[n].controller.value != host.uid
  }

  /** The copy of `s` after a create or a patch. */
  function Written(store: Store, host: HostRef, s: Source): Copy {
    var n := CopyName(host, s.name);
    var o := if n in store then store[n] else Copy("", None, false, false, 0, []);
    o.(hostRef := host.name, controller := Some(host.uid), generation := s.generation, spec := s.spec)
  }

  function WriteAll(store: Store, host: HostRef, xs: seq<Source>): Option<Store>
    decreases |xs|
  {
    if xs == [] then Some(store)
    else if OwnedByOther(store, host, CopyName(host, xs[0].name)) then None
    else WriteAll(store[CopyName(host, xs[0].name) := Written(store, host, xs[0])], host, xs[1..])
  }

  /** The copy names the host, and the host controls it. */
  predicate BelongsTo(c: Copy, host: HostRef) {
    c.hostRef == host.name && c.controller == Some(host.uid)
  }

  /** A live copy that this host controls and that names it. */
  predicate Live(c: Copy, host: HostRef) {
    c.hostRef == host.name && c.controller == Some(host.uid) && !c.deleting
  }

  function Deleted(store: Store, n: string): Store
    requires n in store
  {
    if store[n].finalizers then store[n := store[n].(deleting := true)] else store - {n}
  }

  /** The store once every live copy outside `keep` among `names` was deleted. */
  function PruneAmong(store: Store, host: HostRef, keep: set<string>, names: set<string>): Store {
    map n | n in store && !(n in names && n !in keep && Live(store[n], host) && !store[n].finalizers)
      :: if n in names && n !in keep && Live(store[n], host) then store[n].(deleting := true) else store[n]
  }

  function Prune(store: Store, host: HostRef, keep: set<string>): Store {
    PruneAmong(store, host, keep, store.Keys)
  }

  // ---------------------------------------------------------------- generation attributes

  predicate GenerationAttribute(a: string) {
    EndsWith(a, GENERATION_SUFFIX)
  }

  function SourceOf(a: string): string
    requires GenerationAttribute(a)
  {
    a[..|a| - |GENERATION_SUFFIX|]
  }

  function Record(attributes: Attributes, xs: seq<Source>, format: nat -> string): Attributes
    decreases |xs|
  {
    if xs == [] then attributes
    else Record(attributes[xs[0].name + GENERATION_SUFFIX := format(xs[0].generation)], xs[1..], format)
  }

  function DropStale(attributes: Attributes, host: HostRef, keep: set<string>, visited: set<string>): Attributes {
    map a | a in attributes && !(a in visited && GenerationAttribute(a) && CopyName(host, SourceOf(a)) !in keep)
      :: attributes[a]
  }

  // ---------------------------------------------------------------- the pass

  class Resolver {
    const host: HostRef
    const format: nat -> string
    var store: Store
    var attributes: Attributes

    constructor (host: HostRef, format: nat -> string, store: Store, attributes: Attributes)
      ensures this.host == host && this.format == format && this.store == store && this.attributes == attributes
    {
      this.host, this.format, this.store, this.attributes := host, format, store, attributes;
    }

    /** One create or patch. It fails on an API error or when another owner controls the copy. */
    method WriteCopy(s: Source) returns (ok: bool)
      modifies this`store
      ensures ok ==> !OwnedByOther(old(store), host, CopyName(host, s.name))
                     && store == old(store)[CopyName(host, s.name) := Written(old(store), host, s)]
      ensures !ok ==> store == old(store)
    {
      ok := *;
      if OwnedByOther(store, host, CopyName(host, s.name)) {
        ok := false;
      }
      if ok {
        store := store[CopyName(host, s.name) := Written(store, host, s)];
      }
    }

    /** Writes a copy of every ordered source, then prunes. `clean` says that no call failed: a failed write
        ends the pass with an error and prunes nothing, a failed list or delete is only logged, and then some
        copies are not pruned. */
    method Resolve(ordered: seq<Source>) returns (ok: bool, clean: bool, refs: seq<string>)
      modifies this`store, this`attributes
      ensures clean ==> ok
      ensures ok ==> WriteAll(old(store), host, ordered).Some?
      ensures ok ==> exists names ::
                PruneAmong(WriteAll(old(store), host, ordered).value, host, CopyNames(host, ordered), names) == store
      ensures ok ==> |refs| == |ordered|
      ensures ok ==> forall i :: 0 <= i < |refs| ==> refs[i] == host.name + "-" + ordered[i].name
      ensures clean ==> store == Prune(WriteAll(old(store), host, ordered).value, host, CopyNames(host, ordered))
      ensures ok ==> var recorded := Record(old(attributes), ordered, format);
                     || attributes == DropStale(recorded, host, CopyNames(host, ordered), recorded.Keys)
                     || (!clean && attributes == recorded
                         && store == WriteAll(old(store), host, ordered).value) // the copies could not be listed
      ensures !ok ==> exists i :: 0 <= i < |ordered|
                        && WriteAll(old(store), host, ordered[..i]) == Some(store)
                        && attributes == Record(old(attributes), ordered[..i], format)
    {
      refs := [];
      var keep: set<string> := {};
      var i := 0;
      while i < |ordered|
        invariant 0 <= i <= |ordered|
        invariant |refs| == i && forall j :: 0 <= j < i ==> refs[j] == CopyName(host, ordered[j].name)
        invariant keep == CopyNames(host, ordered[..i])
        invariant WriteAll(store, host, ordered[i..]) == WriteAll(old(store), host, ordered)
        invariant WriteAll(old(store), host, ordered[..i]) == Some(store)
        invariant attributes == Record(old(attributes), ordered[..i], format)
        invariant Record(attributes, ordered[i..], format) == Record(old(attributes), ordered, format)
      {
        var s := ordered[i];
        assert ordered[i..][0] == s && ordered[i..][1..] == ordered[i + 1..];
        assert ordered[..i + 1] == ordered[..i] + [s];
        WriteOneMore(old(store), host, ordered[..i], s);
        RecordOneMore(old(attributes), ordered[..i], s, format);
        ok := WriteCopy(s);
        if !ok {
          return false, false, [];
        }
        refs := refs + [CopyName(host, s.name)];
        keep := keep + {CopyName(host, s.name)};
        attributes := attributes[s.name + GENERATION_SUFFIX := format(s.generation)];
        i := i + 1;
      }
      assert ordered[..i] == ordered;
      ok := true;
      ghost var names;
      clean, names := PruneCopies(keep);
    }

    /** Deletes the live copies this host controls that are not in `keep`, then drops their attributes.
        Nothing fails the pass. */
    method PruneCopies(keep: set<string>) returns (clean: bool, ghost names: set<string>)
      modifies this`store, this`attributes
      ensures store == PruneAmong(old(store), host, keep, names)
      ensures clean ==> store == Prune(old(store), host, keep)
      ensures || attributes == DropStale(old(attributes), host, keep, old(attributes).Keys)
              || (!clean && attributes == old(attributes) && store == old(store))
    {
      names := {};
      var listed: bool := *;
      if !listed {
        return false, names;
      }
      clean, names := DeleteCopies(keep);
      DropAttributes(keep);
    }

    /** `names` are those whose copies were kept or deleted; a failed delete leaves its copy out. */
    method DeleteCopies(keep: set<string>) returns (clean: bool, ghost names: set<string>)
      modifies this`store
      ensures store == PruneAmong(old(store), host, keep, names)
      ensures clean ==> store == Prune(old(store), host, keep)
    {
      clean, names := true, {};
      var before := store;
      var rest := before.Keys;
      while rest != {}
        invariant rest <= before.Keys && names <= before.Keys - rest
        invariant clean ==> names == before.Keys - rest
        invariant store == PruneAmong(before, host, keep, names)
        decreases |rest|
      {
        var n :| n in rest;
        PruneStep(before, host, keep, names, n);
        rest := rest - {n};
        if n in keep || !Live(store[n], host) {
          names := names + {n};
        } else {
          var deleted: bool := *;
          if deleted {
            store := Deleted(store, n);
            names := names + {n};
          } else {
            clean := false;
          }
        }
      }
      assert clean ==> names == before.Keys;
    }

    method DropAttributes(keep: set<string>)
      modifies this`attributes
      ensures attributes == DropStale(old(attributes), host, keep, old(attributes).Keys)
    {
      var before := attributes;
      var rest := before.Keys;
      while rest != {}
        invariant rest <= before.Keys
        invariant attributes == DropStale(before, host, keep, before.Keys - rest)
        decreases |rest|
      {
        var a :| a in rest;
        assert before.Keys - rest + {a} == before.Keys - (rest - {a});
        if GenerationAttribute(a) && CopyName(host, SourceOf(a)) !in keep {
          attributes := attributes - {a};
        }
        rest := rest - {a};
      }
    }
  }

  lemma {:induction false} WriteOneMore(store: Store, host: HostRef, xs: seq<Source>, s: Source)
    requires WriteAll(store, host, xs).Some?
    ensures var st, n := WriteAll(store, host, xs).value, CopyName(host, s.name);
            WriteAll(store, host, xs + [s])
            == if OwnedByOther(st, host, n) then None else Some(st[n := Written(st, host, s)])
    decreases |xs|
  {
    if xs == [] {
      assert xs + [s] == [s];
    } else {
      assert (xs + [s])[1..] == xs[1..] + [s];
      WriteOneMore(store[CopyName(host, xs[0].name) := Written(store, host, xs[0])], host, xs[1..], s);
    }
  }

  lemma {:induction false} RecordOneMore(attributes: Attributes, xs: seq<Source>, s: Source, format: nat -> string)
    ensures Record(attributes, xs + [s], format)
         == Record(attributes, xs, format)[s.name + GENERATION_SUFFIX := format(s.generation)]
    decreases |xs|
  {
    if xs == [] {
      assert xs + [s] == [s];
    } else {
      assert (xs + [s])[1..] == xs[1..] + [s];
      RecordOneMore(attributes[xs[0].name + GENERATION_SUFFIX := format(xs[0].generation)], xs[1..], s, format);
    }
  }

  /** Writing can succeed exactly when no other owner controls a copy of one of the sources. */
  lemma {:induction false} WriteFailsIff(store: Store, host: HostRef, xs: seq<Source>)
    requires DistinctNames(xs)
    ensures WriteAll(store, host, xs).None?
       <==> exists s :: s in xs && OwnedByOther(store, host, CopyName(host, s.name))
    decreases |xs|
  {
    if xs != [] {
      var x, rest := xs[0], xs[1..];
      assert xs == [x] + rest;
      var next := store[CopyName(host, x.name) := Written(store, host, x)];
      if !OwnedByOther(store, host, CopyName(host, x.name)) {
        WriteFailsIff(next, host, rest);
        forall s | s in rest
          ensures OwnedByOther(next, host, CopyName(host, s.name))
             <==> OwnedByOther(store, host, CopyName(host, s.name))
        {
          CopyNameInjective(host, s.name, x.name);
        }
      }
    }
  }

  lemma PruneStep(store: Store, host: HostRef, keep: set<string>, names: set<string>, n: string)
    requires n in store && n !in names
    ensures n in PruneAmong(store, host, keep, names) && PruneAmong(store, host, keep, names)[n] == store[n]
    ensures PruneAmong(store, host, keep, names + {n})
         == if n !in keep && Live(store[n], host) then Deleted(PruneAmong(store, host, keep, names), n)
            else PruneAmong(store, host, keep, names)
  {
  }

  // ---------------------------------------------------------------- what a clean pass means

  predicate DistinctNames(xs: seq<Source>) {
    forall i, j :: 0 <= i < j < |xs| ==> xs[i].name != xs[j].name
  }

  /** Writing touches the copies of the ordered sources and nothing else. */
  lemma {:induction false} WritesExactly(store: Store, host: HostRef, xs: seq<Source>)
    requires DistinctNames(xs) && WriteAll(store, host, xs).Some?
    ensures var st := WriteAll(store, host, xs).value;
            && (forall s :: s in xs ==> CopyName(host, s.name) in st
                                        && st[CopyName(host, s.name)] == Written(store, host, s)
                                        && !OwnedByOther(store, host, CopyName(host, s.name)))
            && (forall n :: n !in CopyNames(host, xs) ==>
                  (n in st <==> n in store) && (n in store ==> st[n] == store[n]))
    decreases |xs|
  {
    if xs != [] {
      var x, rest := xs[0], xs[1..];
      assert xs == [x] + rest;
      var n := CopyName(host, x.name);
      var next := store[n := Written(store, host, x)];
      WritesExactly(next, host, rest);
      forall s | s in rest
        ensures CopyName(host, s.name) != n
      {
        CopyNameInjective(host, s.name, x.name);
      }
      assert n !in CopyNames(host, rest);
    }
  }

  lemma CopyNameInjective(host: HostRef, a: string, b: string)
    ensures CopyName(host, a) == CopyName(host, b) <==> a == b
  {
    assert CopyName(host, a)[|host.name| + 1..] == a && CopyName(host, b)[|host.name| + 1..] == b;
  }

  /** When copies of two hosts differ: always, except for the same host and source, or for names that overlap, as host
      "a-b" with "c" and host "a" with "b-c" do. So hosts share no copy of a translation of the same name. */
  lemma CopiesCollideIff(a: HostRef, m: string, b: HostRef, n: string)
    ensures CopyName(a, m) == CopyName(b, n)
       <==> (a.name == b.name && m == n) || Overlap(a.name, m, b.name, n) || Overlap(b.name, n, a.name, m)
    ensures m == n ==> (CopyName(a, m) == CopyName(b, n) <==> a.name == b.name)
  {
    JoinsCollideIff(a.name, m, b.name, n);
    if m == n && CopyName(a, m) == CopyName(b, n) {
      SameTail(a.name, m, b.name, n);
    }
  }

  /** The store after a clean pass. */
  function Resolved(store: Store, host: HostRef, ordered: seq<Source>): Store
    requires WriteAll(store, host, ordered).Some?
  {
    Prune(WriteAll(store, host, ordered).value, host, CopyNames(host, ordered))
  }

  function Terminating(store: Store): set<string> {
    set n | n in store && store[n].deleting
  }

  function LiveNames(store: Store, host: HostRef): set<string> {
    set n | n in store && Live(store[n], host)
  }

  /** Resolution is exact. After a clean pass the live copies of the host are the copies of the ordered
      sources, each with its source's spec and generation, except those that were already terminating; so
      they are all of them exactly when no such copy was terminating. A copy the host does not control and
      that no source maps to is as it was. */
  lemma ResolutionExact(store: Store, host: HostRef, ordered: seq<Source>)
    requires DistinctNames(ordered) && WriteAll(store, host, ordered).Some?
    ensures var st := Resolved(store, host, ordered);
            && LiveNames(st, host) == CopyNames(host, ordered) - Terminating(store)
            && (LiveNames(st, host) == CopyNames(host, ordered) <==> CopyNames(host, ordered) !! Terminating(store))
            && (forall s :: s in ordered ==>
                  var n := CopyName(host, s.name);
                  n in st && st[n].spec == s.spec && st[n].generation == s.generation && BelongsTo(st[n], host))
            && (forall n :: n in store && n !in CopyNames(host, ordered) && !BelongsTo(store[n], host)
                  ==> n in st && st[n] == store[n])
  {
    WritesExactly(store, host, ordered);
    var w, st := WriteAll(store, host, ordered).value, Resolved(store, host, ordered);
    forall n
      ensures n in LiveNames(st, host) <==> n in CopyNames(host, ordered) && n !in Terminating(store)
    {
      if n in CopyNames(host, ordered) {
        var s :| s in ordered && CopyName(host, s.name) == n;
        assert w[n] == Written(store, host, s);
      }
    }
  }

  /** Even a pass whose deletes fail leaves alone what the host does not control, and every written copy. */
  lemma PartialPruneSpares(store: Store, host: HostRef, ordered: seq<Source>, names: set<string>, n: string)
    requires DistinctNames(ordered) && WriteAll(store, host, ordered).Some?
    ensures var w := WriteAll(store, host, ordered).value;
            var st := PruneAmong(w, host, CopyNames(host, ordered), names);
            && (n in CopyNames(host, ordered) ==> n in st && st[n] == w[n])
            && (n in store.Keys - CopyNames(host, ordered) && !BelongsTo(store[n], host) ==>
                  n in st && st[n] == store[n])
  {
    WritesExactly(store, host, ordered);
  }

  /** And idempotent: a second clean pass writes what is there and deletes nothing. */
  lemma ResolutionIdempotent(store: Store, host: HostRef, ordered: seq<Source>)
    requires DistinctNames(ordered) && WriteAll(store, host, ordered).Some?
    ensures var st := Resolved(store, host, ordered);
            && WriteAll(st, host, ordered) == Some(st)
            && Resolved(st, host, ordered) == st
  {
    var st := Resolved(store, host, ordered);
    ResolvedIsWritten(store, host, ordered);
    RewriteIsIdentity(st, host, ordered);
    ResolutionExact(store, host, ordered);
    assert forall n :: n in st && Live(st[n], host) ==> n in LiveNames(st, host);
    PruneNothing(st, host, CopyNames(host, ordered));
  }

  lemma PruneNothing(store: Store, host: HostRef, keep: set<string>)
    requires forall n :: n in store && Live(store[n], host) ==> n in keep
    ensures Prune(store, host, keep) == store
  {
  }

  lemma ResolvedIsWritten(store: Store, host: HostRef, ordered: seq<Source>)
    requires DistinctNames(ordered) && WriteAll(store, host, ordered).Some?
    ensures var st := Resolved(store, host, ordered);
            forall s :: s in ordered ==>
              CopyName(host, s.name) in st && Written(st, host, s) == st[CopyName(host, s.name)]
  {
    WritesExactly(store, host, ordered);
    forall s | s in ordered
      ensures CopyName(host, s.name) in CopyNames(host, ordered)
    {
    }
  }

  lemma {:induction false} RewriteIsIdentity(store: Store, host: HostRef, xs: seq<Source>)
    requires forall s :: s in xs ==>
               CopyName(host, s.name) in store && Written(store, host, s) == store[CopyName(host, s.name)]
    ensures WriteAll(store, host, xs) == Some(store)
    decreases |xs|
  {
    if xs != [] {
      var n := CopyName(host, xs[0].name);
      assert Written(store, host, xs[0]).controller == Some(host.uid);
      assert store[n := store[n]] == store;
      RewriteIsIdentity(store, host, xs[1..]);
    }
  }

  lemma {:induction false} RecordExact(attributes: Attributes, xs: seq<Source>, format: nat -> string, a: string)
    requires DistinctNames(xs)
    ensures var r := Record(attributes, xs, format);
            && (forall s :: s in xs && a == s.name + GENERATION_SUFFIX ==> a in r && r[a] == format(s.generation))
            && ((forall s :: s in xs ==> a != s.name + GENERATION_SUFFIX) ==>
                  (a in r <==> a in attributes) && (a in r ==> r[a] == attributes[a]))
    decreases |xs|
  {
    if xs != [] {
      var x, rest := xs[0], xs[1..];
      assert xs == [x] + rest;
      RecordExact(attributes[x.name + GENERATION_SUFFIX := format(x.generation)], rest, format, a);
      forall s | s in rest && a == s.name + GENERATION_SUFFIX
        ensures a != x.name + GENERATION_SUFFIX
      {
        SuffixSplits(s.name);
        SuffixSplits(x.name);
      }
    }
  }

  lemma SuffixSplits(name: string)
    ensures GenerationAttribute(name + GENERATION_SUFFIX) && SourceOf(name + GENERATION_SUFFIX) == name
  {
  }

  lemma SourceJoins(a: string)
    requires GenerationAttribute(a)
    ensures a == SourceOf(a) + GENERATION_SUFFIX
  {
  }

  /** After a clean pass the translation generation attributes are exactly those of the ordered sources, with
      their generations; the other attributes are as they were. */
  lemma AttributesExact(attributes: Attributes, host: HostRef, ordered: seq<Source>, format: nat -> string, a: string)
    requires DistinctNames(ordered)
    ensures var recorded := Record(attributes, ordered, format);
            var r := DropStale(recorded, host, CopyNames(host, ordered), recorded.Keys);
            && (EndsWith(a, ".translation.generation") ==>
                  (a in r <==> exists s :: s in ordered && a == s.name + ".translation.generation"))
            && (forall s :: s in ordered && a == s.name + ".translation.generation" ==>
                  a in r && r[a] == format(s.generation))
            && (!EndsWith(a, ".translation.generation") ==>
                  (a in r <==> a in attributes) && (a in r ==> r[a] == attributes[a]))
  {
    RecordExact(attributes, ordered, format, a);
    forall s | s in ordered
      ensures CopyName(host, s.name) in CopyNames(host, ordered)
      ensures GenerationAttribute(s.name + GENERATION_SUFFIX) && SourceOf(s.name + GENERATION_SUFFIX) == s.name
    {
      SuffixSplits(s.name);
    }
    if GenerationAttribute(a) && CopyName(host, SourceOf(a)) in CopyNames(host, ordered) {
      var s :| s in ordered && CopyName(host, s.name) == CopyName(host, SourceOf(a));
      CopyNameInjective(host, s.name, SourceOf(a));
      SourceJoins(a);
    }
  }

  /** The order and the resolution together: after a clean pass the live copies are those of the attached names,
      terminating ones aside, and each carries the spec of the last candidate of its name. */
  lemma ResolvedOrderExact(
    store: Store, host: HostRef, default: Option<Source>, self: seq<Source>, declared: seq<Source>)
    requires WriteAll(store, host, LastPerName(Candidates(default, self, declared))).Some?
    ensures var cs := Candidates(default, self, declared);
            var st := Resolved(store, host, LastPerName(cs));
            && LiveNames(st, host) == CopyNames(host, cs) - Terminating(store)
            && (forall s :: s in cs ==>
                  var n := CopyName(host, s.name);
                  n in st && st[n].spec == Winner(cs, s.name).spec && st[n].generation == Winner(cs, s.name).generation)
            && (forall n :: n in store && n !in CopyNames(host, cs) && !BelongsTo(store[n], host)
                  ==> n in st && st[n] == store[n])
  {
    var cs := Candidates(default, self, declared);
    var ordered := LastPerName(cs);
    OrderedAreWinners(cs);
    ResolutionExact(store, host, ordered);
    forall s | s in cs
      ensures Winner(cs, s.name) in ordered && Winner(cs, s.name).name == s.name
    {
      WinnerNames(cs, s.name);
    }
    assert CopyNames(host, ordered) == CopyNames(host, cs) by {
      forall s | s in cs
        ensures CopyName(host, s.name) in CopyNames(host, ordered)
      {
        assert CopyName(host, Winner(cs, s.name).name) in CopyNames(host, ordered);
      }
    }
  }
}
