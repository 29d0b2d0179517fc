/** Which extensions a host applies, and the two reconcilers that ask. */
module Extensions {
  import opened Wrappers
  import opened Ordering

  datatype Extension = Extension(
    name: string, hostRef: string, deleting: bool, labels: map<string, string>, weight: int,
    claimMappings: seq<string>, entitlements: seq<string>, generation: nat)

  /** spec.extensionSelector; matching and parsing are the label library's. */
  datatype Selector = NoSelector | Unparseable(error: string) | Parsed(matches: map<string, string> -> bool)

  datatype Host = Host(name: string, selector: Selector)

  /** The claim compiler: the error of a list of claim mappings, if any. */
  type Compiler = seq<string> -> Option<string>

  const MAX_HOST_EXTENSIONS := 32

  predicate Accepts(host: Host, e: Extension)
    requires host.selector.Parsed?
  {
    e.hostRef == host.name && !e.deleting && host.selector.matches(e.labels)
  }

  function CompileError(compile: Compiler, e: Extension): Option<string> {
    if |e.claimMappings| > 0 then compile(e.claimMappings) else None
  }

  /** Accepted and compiling; accepted and not. */
  predicate Valid(host: Host, compile: Compiler, e: Extension)
    requires host.selector.Parsed?
  {
    Accepts(host, e) && CompileError(compile, e).None?
  }

  predicate Invalid(host: Host, compile: Compiler, e: Extension)
    requires host.selector.Parsed?
  {
    Accepts(host, e) && CompileError(compile, e).Some?
  }

  function Filter(keep: Extension -> bool, xs: seq<Extension>): seq<Extension> {
    if xs == [] then [] else (if keep(xs[0]) then [xs[0]] else []) + Filter(keep, xs[1..])
  }

  function ValidIn(host: Host, compile: Compiler, xs: seq<Extension>): seq<Extension>
    requires host.selector.Parsed?
  {
    Filter(e => Valid(host, compile, e), xs)
  }

  function InvalidIn(host: Host, compile: Compiler, xs: seq<Extension>): seq<Extension>
    requires host.selector.Parsed?
  {
    Filter(e => Invalid(host, compile, e), xs)
  }

  /** Application order: weight, then name. */
  predicate RankLe(a: Extension, b: Extension) {
    a.weight < b.weight || (a.weight == b.weight && StringLe(a.name, b.name))
  }

  predicate Precedes(a: Extension, b: Extension) {
    RankLe(a, b) && !RankLe(b, a)
  }

  lemma RankLeIsPreorder()
    ensures TotalPreorder(RankLe)
  {
    StringLeIsPreorder();
  }

  datatype Selection = Selection(applied: seq<Extension>, overflow: seq<Extension>, invalid: seq<Extension>)

  const NOTHING := Selection([], [], [])

  /** What a selection must be. The sort is not stable, so extensions of equal rank may come in any order. */
  ghost predicate Selects(host: Host, compile: Compiler, candidates: seq<Extension>, sel: Selection) {
    if !host.selector.Parsed? then sel == NOTHING
    else
      && SortedBy(RankLe, sel.applied + sel.overflow)
      && multiset(sel.applied + sel.overflow) == multiset(ValidIn(host, compile, candidates))
      && sel.invalid == InvalidIn(host, compile, candidates)
      && |sel.applied| <= MAX_HOST_EXTENSIONS
      && (sel.overflow != [] ==> |sel.applied| == MAX_HOST_EXTENSIONS)
  }

  /** `a` has the smaller weight, or the same weight and a name that comes before. */
  ghost predicate Lighter(a: Extension, b: Extension) {
    a.weight < b.weight || (a.weight == b.weight && ComesBefore(a.name, b.name))
  }

  /** The host takes the extension: it names the host, is not being deleted, matches the selector, and compiles. */
  predicate Taken(host: Host, compile: Compiler, e: Extension)
    requires host.selector.Parsed?
  {
    && e.hostRef == host.name && !e.deleting && host.selector.matches(e.labels)
    && (e.claimMappings == [] || compile(e.claimMappings).None?)
  }

  /** The same, but it does not compile. */
  predicate TurnedDown(host: Host, compile: Compiler, e: Extension)
    requires host.selector.Parsed?
  {
    && e.hostRef == host.name && !e.deleting && host.selector.matches(e.labels)
    && e.claimMappings != [] && compile(e.claimMappings).Some?
  }

  lemma InWords(host: Host, compile: Compiler, e: Extension, f: Extension)
    ensures host.selector.Parsed? ==> (Valid(host, compile, e) <==> Taken(host, compile, e))
    ensures host.selector.Parsed? ==> (Invalid(host, compile, e) <==> TurnedDown(host, compile, e))
    ensures Precedes(f, e) <==> Lighter(f, e)
    ensures RankLe(f, e) <==> Lighter(f, e) || (f.weight == e.weight && f.name == e.name)
  {
    StringLeIff(f.name, e.name);
    StringLeIff(e.name, f.name);
    StringLeTotal(e.name, f.name);
  }

  /** A selection, field by field: in ascending weight and then by name, only what the host takes, at most 32. */
  lemma SelectionInWords(host: Host, compile: Compiler, candidates: seq<Extension>, sel: Selection)
    requires Selects(host, compile, candidates, sel)
    ensures InOrder(sel.applied + sel.overflow) && |sel.applied| <= 32
    ensures host.selector.Parsed? ==> forall e ::
              && (e in sel.applied + sel.overflow <==> e in candidates && Taken(host, compile, e))
              && (e in sel.invalid <==> e in candidates && TurnedDown(host, compile, e))
    ensures !host.selector.Parsed? ==> sel.applied == [] && sel.overflow == [] && sel.invalid == []
  {
    var xs := sel.applied + sel.overflow;
    forall i, j | 0 <= i < j < |xs|
      ensures Lighter(xs[i], xs[j]) || (xs[i].weight == xs[j].weight && xs[i].name == xs[j].name)
    {
      InWords(host, compile, xs[j], xs[i]);
    }
    if host.selector.Parsed? {
      forall e
        ensures e in xs <==> e in candidates && Taken(host, compile, e)
        ensures e in sel.invalid <==> e in candidates && TurnedDown(host, compile, e)
      {
        SelectedMembers(host, compile, candidates, sel, e);
        InWords(host, compile, e, e);
      }
    }
  }

  /** Each is lighter than the next, or of the same weight and name. */
  ghost predicate InOrder(xs: seq<Extension>) {
    forall i, j :: 0 <= i < j < |xs| ==>
      Lighter(xs[i], xs[j]) || (xs[i].weight == xs[j].weight && xs[i].name == xs[j].name)
  }

  /** Filters and compiles in one loop, sorts, then cuts at the cap. */
  method SelectExtensions(host: Host, compile: Compiler, candidates: seq<Extension>)
    returns (sel: Selection, err: Option<string>)
    ensures Selects(host, compile, candidates, sel)
    ensures InOrder(sel.applied + sel.overflow) && |sel.applied| <= 32
    ensures host.selector.Parsed? ==> forall e ::
              && (e in sel.applied + sel.overflow <==> e in candidates && Taken(host, compile, e))
              && (e in sel.invalid <==> e in candidates && TurnedDown(host, compile, e))
    ensures err == if host.selector.Unparseable? then Some(host.selector.error) else None
  {
    if host.selector.NoSelector? {
      SelectionInWords(host, compile, candidates, NOTHING);
      return NOTHING, None;
    }
    if host.selector.Unparseable? {
      SelectionInWords(host, compile, candidates, NOTHING);
      return NOTHING, Some(host.selector.error);
    }
    var matched, invalid := Partition(host, compile, candidates);
    RankLeIsPreorder();
    matched := Sort(matched, RankLe);
    err := None;
    if |matched| > MAX_HOST_EXTENSIONS {
      sel := Selection(matched[..MAX_HOST_EXTENSIONS], matched[MAX_HOST_EXTENSIONS..], invalid);
      assert sel.applied + sel.overflow == matched;
    } else {
      sel := Selection(matched, [], invalid);
      assert sel.applied + sel.overflow == matched;
    }
    SelectionInWords(host, compile, candidates, sel);
  }

  method Partition(host: Host, compile: Compiler, candidates: seq<Extension>)
    returns (matched: seq<Extension>, invalid: seq<Extension>)
    requires host.selector.Parsed?
    ensures matched == ValidIn(host, compile, candidates)
    ensures invalid == InvalidIn(host, compile, candidates)
  {
    matched, invalid := [], [];
    var i := 0;
    while i < |candidates|
      invariant 0 <= i <= |candidates|
      invariant matched + ValidIn(host, compile, candidates[i..]) == ValidIn(host, compile, candidates)
      invariant invalid + InvalidIn(host, compile, candidates[i..]) == InvalidIn(host, compile, candidates)
    {
      var e := candidates[i];
      assert candidates[i..][1..] == candidates[i + 1..];
      i := i + 1;
      if e.hostRef != host.name || e.deleting || !host.selector.matches(e.labels) {
        continue;
      }
      if |e.claimMappings| > 0 && compile(e.claimMappings).Some? {
        invalid := invalid + [e];
        continue;
      }
      matched := matched + [e];
    }
  }

  // ---------------------------------------------------------------- multiplicities

  lemma {:induction false} FilterCounts(keep: Extension -> bool, xs: seq<Extension>, e: Extension)
    ensures multiset(Filter(keep, xs))[e] == if keep(e) then multiset(xs)[e] else 0
    decreases |xs|
  {
    if xs != [] {
      FilterCounts(keep, xs[1..], e);
      assert xs == [xs[0]] + xs[1..];
    }
  }

  lemma FilterMembers(keep: Extension -> bool, xs: seq<Extension>, e: Extension)
    ensures e in Filter(keep, xs) <==> e in xs && keep(e)
  {
    FilterCounts(keep, xs, e);
    assert e in Filter(keep, xs) <==> e in multiset(Filter(keep, xs));
    assert e in xs <==> e in multiset(xs);
  }

  lemma FilterIgnoresOrder(keep: Extension -> bool, xs: seq<Extension>, ys: seq<Extension>)
    requires forall e :: keep(e) ==> multiset(xs)[e] == multiset(ys)[e]
    ensures multiset(Filter(keep, xs)) == multiset(Filter(keep, ys))
  {
    forall e
      ensures multiset(Filter(keep, xs))[e] == multiset(Filter(keep, ys))[e]
    {
      FilterCounts(keep, xs, e);
      FilterCounts(keep, ys, e);
    }
  }

  // ---------------------------------------------------------------- the rank theorem

  /** No two of them share a name: the API server's uniqueness in a namespace. */
  predicate UniqueNames(xs: seq<Extension>) {
    forall i, j :: 0 <= i < j < |xs| ==> xs[i].name != xs[j].name
  }

  lemma {:induction false} UniqueMeansOnce(xs: seq<Extension>)
    requires UniqueNames(xs)
    ensures forall a :: multiset(xs)[a] <= 1
    ensures forall a, b :: a in xs && b in xs && a.name == b.name ==> a == b
    decreases |xs|
  {
    if xs != [] {
      UniqueMeansOnce(xs[1..]);
      assert xs == [xs[0]] + xs[1..];
    }
  }

  predicate Distinct(xs: seq<Extension>) {
    forall i, j :: 0 <= i < j < |xs| ==> xs[i] != xs[j]
  }

  lemma {:induction false} OnceMeansDistinct(xs: seq<Extension>)
    requires forall a :: multiset(xs)[a] <= 1
    ensures Distinct(xs)
    decreases |xs|
  {
    if xs != [] {
      var x, rest := xs[0], xs[1..];
      assert xs == [x] + rest;
      forall a
        ensures multiset(rest)[a] <= 1 && (a == x ==> a !in rest)
      {
        assert multiset(xs)[a] == multiset{x}[a] + multiset(rest)[a];
        assert a in rest <==> a in multiset(rest);
      }
      OnceMeansDistinct(rest);
      assert x !in rest;
      forall i, j | 0 <= i < j < |xs|
        ensures xs[i] != xs[j]
      {
        assert xs[j] == rest[j - 1] && rest[j - 1] in rest;
      }
    }
  }

  lemma {:induction false} DistinctCount(xs: seq<Extension>)
    requires Distinct(xs)
    ensures |set x | x in xs| == |xs|
    decreases |xs|
  {
    if xs != [] {
      var x, rest := xs[0], xs[1..];
      assert xs == [x] + rest;
      DistinctCount(rest);
      assert (set y | y in xs) == {x} + (set y | y in rest);
    }
  }

  /** In a strictly ranked sequence the elements before position i are those that precede the i-th. */
  lemma IndexIsRank(xs: seq<Extension>, i: nat)
    requires SortedBy(RankLe, xs) && i < |xs|
    requires forall a :: multiset(xs)[a] <= 1
    requires forall a, b :: a in xs && b in xs && a.name == b.name ==> a == b
    ensures |set f | f in xs && Precedes(f, xs[i])| == i
  {
    OnceMeansDistinct(xs);
    DistinctCount(xs[..i]);
    forall j | 0 <= j < |xs|
      ensures Precedes(xs[j], xs[i]) <==> j < i
    {
      StringLeTotal(xs[j].name, xs[i].name);
      StringLeTotal(xs[i].name, xs[i].name);
    }
    assert (set f | f in xs && Precedes(f, xs[i])) == set f | f in xs[..i];
  }

  /** What the selection holds: once each, the valid candidates, and aside the invalid ones. */
  lemma SelectedMembers(host: Host, compile: Compiler, candidates: seq<Extension>, sel: Selection, e: Extension)
    requires host.selector.Parsed? && Selects(host, compile, candidates, sel)
    ensures e in sel.applied + sel.overflow <==> e in candidates && Valid(host, compile, e)
    ensures e in sel.invalid <==> e in candidates && Invalid(host, compile, e)
  {
    var xs := sel.applied + sel.overflow;
    FilterMembers(x => Valid(host, compile, x), candidates, e);
    FilterMembers(x => Invalid(host, compile, x), candidates, e);
    assert e in xs <==> e in multiset(xs);
    assert e in ValidIn(host, compile, candidates) <==> e in multiset(ValidIn(host, compile, candidates));
  }

  lemma SelectedOnce(host: Host, compile: Compiler, candidates: seq<Extension>, sel: Selection)
    requires host.selector.Parsed? && Selects(host, compile, candidates, sel) && UniqueNames(candidates)
    ensures forall a :: multiset(sel.applied + sel.overflow)[a] <= 1
    ensures forall a, b ::
              a in sel.applied + sel.overflow && b in sel.applied + sel.overflow && a.name == b.name ==> a == b
  {
    UniqueMeansOnce(candidates);
    forall a
      ensures multiset(sel.applied + sel.overflow)[a] <= 1
      ensures a in sel.applied + sel.overflow ==> a in candidates
    {
      FilterCounts(x => Valid(host, compile, x), candidates, a);
      SelectedMembers(host, compile, candidates, sel, a);
    }
  }

  /** The valid candidates that precede `e`. */
  function Before(host: Host, compile: Compiler, candidates: seq<Extension>, e: Extension): set<Extension>
    requires host.selector.Parsed?
  {
    set f | f in candidates && Valid(host, compile, f) && Precedes(f, e)
  }

  /** The position of an extension in the selection is the number of valid candidates that precede it. */
  lemma PositionIsRank(host: Host, compile: Compiler, candidates: seq<Extension>, sel: Selection, i: nat)
    requires host.selector.Parsed? && Selects(host, compile, candidates, sel) && UniqueNames(candidates)
    requires i < |sel.applied + sel.overflow|
    ensures |Before(host, compile, candidates, (sel.applied + sel.overflow)[i])| == i
  {
    SelectedOnce(host, compile, candidates, sel);
    var xs := sel.applied + sel.overflow;
    IndexIsRank(xs, i);
    forall f
      ensures f in xs <==> f in candidates && Valid(host, compile, f)
    {
      SelectedMembers(host, compile, candidates, sel, f);
    }
    assert (set f | f in xs && Precedes(f, xs[i])) == Before(host, compile, candidates, xs[i]);
  }

  lemma BeforeInWords(host: Host, compile: Compiler, candidates: seq<Extension>, e: Extension)
    requires host.selector.Parsed?
    ensures Before(host, compile, candidates, e)
         == set f | f in candidates && Taken(host, compile, f) && Lighter(f, e)
  {
    forall f
      ensures Valid(host, compile, f) && Precedes(f, e) <==> Taken(host, compile, f) && Lighter(f, e)
    {
      InWords(host, compile, f, e);
      InWords(host, compile, e, f);
    }
  }

  /** An extension that the host takes is applied exactly when fewer than 32 others that it takes are lighter, or of
      the same weight and before it by name; otherwise it overflows. */
  lemma RankTheorem(host: Host, compile: Compiler, candidates: seq<Extension>, sel: Selection, e: Extension)
    requires host.selector.Parsed? && Selects(host, compile, candidates, sel) && UniqueNames(candidates)
    requires e in candidates && Taken(host, compile, e)
    ensures e in sel.applied <==> |set f | f in candidates && Taken(host, compile, f) && Lighter(f, e)| < 32
    ensures e in sel.overflow <==> e !in sel.applied
  {
    InWords(host, compile, e, e);
    BeforeInWords(host, compile, candidates, e);
    SelectedMembers(host, compile, candidates, sel, e);
    assert e in sel.applied + sel.overflow;
    if e in sel.applied {
      var j :| 0 <= j < |sel.applied| && sel.applied[j] == e;
      PositionIsRank(host, compile, candidates, sel, j);
    }
    if e in sel.overflow {
      var j :| 0 <= j < |sel.overflow| && sel.overflow[j] == e;
      PositionIsRank(host, compile, candidates, sel, |sel.applied| + j);
    }
  }

  /** Applied, overflow and invalid partition the accepted extensions, duplicates included. */
  lemma SelectionPartitions(host: Host, compile: Compiler, candidates: seq<Extension>, sel: Selection, e: Extension)
    requires host.selector.Parsed? && Selects(host, compile, candidates, sel)
    ensures multiset(sel.applied)[e] + multiset(sel.overflow)[e] + multiset(sel.invalid)[e]
         == if Accepts(host, e) then multiset(candidates)[e] else 0
  {
    FilterCounts(x => Valid(host, compile, x), candidates, e);
    FilterCounts(x => Invalid(host, compile, x), candidates, e);
    assert multiset(sel.applied + sel.overflow)[e] == multiset(sel.applied)[e] + multiset(sel.overflow)[e];
  }

  /** The selection depends only on which extensions are valid, not on the order they are listed in. */
  lemma SameValidSameSelection(
    host: Host, compile: Compiler, xs: seq<Extension>, ys: seq<Extension>, a: Selection, b: Selection)
    requires host.selector.Parsed? && Selects(host, compile, xs, a) && Selects(host, compile, ys, b)
    requires multiset(ValidIn(host, compile, xs)) == multiset(ValidIn(host, compile, ys))
    requires UniqueNames(xs)
    ensures a.applied == b.applied && a.overflow == b.overflow
  {
    SelectedOnce(host, compile, xs, a);
    var p, q := a.applied + a.overflow, b.applied + b.overflow;
    forall x, y | x in p && y in p && RankLe(x, y) && RankLe(y, x)
      ensures x == y
    {
      StringLeTotal(x.name, y.name);
    }
    SortedIsUnique(RankLe, p, q);
    assert |a.applied| == |b.applied|;
    assert a.applied == p[..|a.applied|] && b.applied == q[..|b.applied|];
    assert a.overflow == p[|a.applied|..] && b.overflow == q[|b.applied|..];
  }

  lemma SelectionIgnoresOrder(
    host: Host, compile: Compiler, xs: seq<Extension>, ys: seq<Extension>, a: Selection, b: Selection)
    requires Selects(host, compile, xs, a) && Selects(host, compile, ys, b)
    requires UniqueNames(xs) && multiset(xs) == multiset(ys)
    ensures a.applied == b.applied && a.overflow == b.overflow && multiset(a.invalid) == multiset(b.invalid)
  {
    if host.selector.Parsed? {
      FilterIgnoresOrder(x => Valid(host, compile, x), xs, ys);
      FilterIgnoresOrder(x => Invalid(host, compile, x), xs, ys);
      SameValidSameSelection(host, compile, xs, ys, a, b);
    }
  }

  /** Adding (or, read backwards, removing) an extension that does not compile never changes what is applied. */
  lemma InvalidNeverMatters(
    host: Host, compile: Compiler, xs: seq<Extension>, i: nat, bad: Extension, a: Selection, b: Selection)
    requires i <= |xs| && CompileError(compile, bad).Some? && UniqueNames(xs)
    requires Selects(host, compile, xs, a) && Selects(host, compile, xs[..i] + [bad] + xs[i..], b)
    ensures a.applied == b.applied && a.overflow == b.overflow
  {
    if host.selector.Parsed? {
      var ys := xs[..i] + [bad] + xs[i..];
      assert multiset(ys) == multiset(xs) + multiset{bad} by {
        assert xs == xs[..i] + xs[i..];
      }
      FilterIgnoresOrder(x => Valid(host, compile, x), xs, ys);
      SameValidSameSelection(host, compile, xs, ys, a, b);
    }
  }

  // ---------------------------------------------------------------- the extension reconciler

  datatype Reason = HostNotFound | NotSelected | Attached | LimitExceeded | InvalidClaimMappings(error: string)

  /** containsExtension: a search by name. */
  predicate Contains(xs: seq<Extension>, name: string) {
    exists i :: 0 <= i < |xs| && xs[i].name == name
  }

  method ContainsExtension(xs: seq<Extension>, name: string) returns (found: bool)
    ensures found == Contains(xs, name)
  {
    for i := 0 to |xs|
      invariant !Contains(xs[..i], name)
    {
      if xs[i].name == name {
        return true;
      }
    }
    assert xs == xs[..|xs|];
    return false;
  }

  /** The compile error of the first rejected extension of that name. */
  method InvalidErr(compile: Compiler, invalid: seq<Extension>, name: string) returns (err: Option<string>)
    requires forall e :: e in invalid ==> CompileError(compile, e).Some?
    ensures err.Some? <==> Contains(invalid, name)
    ensures err.Some? ==> exists e :: e in invalid && e.name == name && CompileError(compile, e) == err
  {
    for i := 0 to |invalid|
      invariant !Contains(invalid[..i], name)
    {
      if invalid[i].name == name {
        return CompileError(compile, invalid[i]);
      }
    }
    assert invalid == invalid[..|invalid|];
    return None;
  }

  /** Reading the host that an extension names. */
  datatype HostRead = Missing | Unreadable | Read(host: Host)

  /** The reason an extension reports, from the host it names and the siblings listed; none when either could
      not be read. `sel` is the selection it looked at. */
  method DecideReason(name: string, read: HostRead, siblings: Option<seq<Extension>>, compile: Compiler)
    returns (reason: Option<Reason>, ghost sel: Selection)
    ensures reason.None? <==> read.Unreadable? || (read.Read? && siblings.None?)
    ensures read.Missing? ==> reason == Some(HostNotFound)
    ensures read.Read? && siblings.Some? ==>
              Selects(read.host, compile, siblings.value, sel) && Reports(compile, sel, name, reason.value)
  {
    sel := NOTHING;
    if read.Missing? {
      return Some(HostNotFound), sel;
    }
    if read.Unreadable? || siblings.None? {
      return None, sel;
    }
    var host := read.host;
    var selection, err := SelectExtensions(host, compile, siblings.value);
    sel := selection;
    forall e | e in selection.invalid
      ensures CompileError(compile, e).Some?
    {
      if host.selector.Parsed? {
        SelectedMembers(host, compile, siblings.value, selection, e);
      }
    }
    var compileErr := InvalidErr(compile, selection.invalid, name);
    if err.Some? {
      return Some(NotSelected), sel;
    }
    var applied := ContainsExtension(selection.applied, name);
    if applied {
      return Some(Attached), sel;
    }
    var over := ContainsExtension(selection.overflow, name);
    if over {
      return Some(LimitExceeded), sel;
    }
    if compileErr.Some? {
      return Some(InvalidClaimMappings(compileErr.value)), sel;
    }
    return Some(NotSelected), sel;
  }

  /** An extension with the status its reconciler patches: the reason of its Attached condition, which is True
      exactly for the reason Attached. */
  class ExtensionObject {
    const spec: Extension
    var condition: Option<Reason>
    var observedGeneration: nat

    constructor (spec: Extension)
      ensures this.spec == spec && condition == None && observedGeneration == 0
    {
      this.spec, condition, observedGeneration := spec, None, 0;
    }

    /** A deleted extension is left alone; a read, list or patch that fails changes nothing. */
    method Reconcile(read: HostRead, siblings: Option<seq<Extension>>, compile: Compiler, patches: bool)
      returns (ok: bool, ghost sel: Selection)
      modifies this
      ensures spec.deleting ==> ok
      ensures !spec.deleting ==> (ok <==> patches && !read.Unreadable? && (read.Read? ==> siblings.Some?))
      ensures spec.deleting || !ok ==> condition == old(condition) && observedGeneration == old(observedGeneration)
      ensures !spec.deleting && ok ==>
                && condition.Some? && observedGeneration == spec.generation
                && (read.Missing? ==> condition.value == HostNotFound)
                && (read.Read? ==> Selects(read.host, compile, siblings.value, sel)
                                   && Reports(compile, sel, spec.name, condition.value))
    {
      sel := NOTHING;
      if spec.deleting {
        return true, sel;
      }
      var reason;
      reason, sel := DecideReason(spec.name, read, siblings, compile);
      ok := reason.Some? && patches;
      if ok {
        condition, observedGeneration := reason, spec.generation;
      }
    }
  }

  /** The reason reported for a name under a selection. */
  ghost predicate Reports(compile: Compiler, sel: Selection, name: string, reason: Reason) {
    && (reason == Attached <==> Contains(sel.applied, name))
    && (reason == LimitExceeded <==> !Contains(sel.applied, name) && Contains(sel.overflow, name))
    && (reason.InvalidClaimMappings? <==>
          !Contains(sel.applied, name) && !Contains(sel.overflow, name) && Contains(sel.invalid, name))
    && (reason.InvalidClaimMappings? ==>
          exists e :: e in sel.invalid && e.name == name && CompileError(compile, e) == Some(reason.error))
    && reason != HostNotFound
  }

  // ---------------------------------------------------------------- the host reconciler

  datatype Applied = Applied(
    name: string, generation: nat, weight: int, claimMappings: seq<string>, entitlements: seq<string>)

  type Attributes = map<string, string>

  const GENERATION_SUFFIX := ".extension.generation"

  predicate GenerationAttribute(a: string) {
    EndsWith(a, GENERATION_SUFFIX)
  }

  function Entry(e: Extension): Applied {
    Applied(e.name, e.generation, e.weight, e.claimMappings, e.entitlements)
  }

  function Entries(xs: seq<Extension>): (r: seq<Applied>)
    ensures |r| == |xs| && forall i :: 0 <= i < |xs| ==> r[i] == Entry(xs[i])
  {
    seq(|xs|, i requires 0 <= i < |xs| => Entry(xs[i]))
  }

  function Others(attributes: Attributes): Attributes {
    map a | a in attributes && !GenerationAttribute(a) :: attributes[a]
  }

  function Record(attributes: Attributes, xs: seq<Extension>, format: nat -> string): Attributes
    decreases |xs|
  {
    if xs == [] then attributes
    else
      var x := xs[|xs| - 1];
      Record(attributes, xs[..|xs| - 1], format)[x.name + GENERATION_SUFFIX := format(x.generation)]
  }

  datatype Failure = ListFailed | InvalidSelector(error: string)

  /** The status attributes of a host, and the resolution that rewrites them. */
  class HostRecord {
    const format: nat -> string
    var attributes: Attributes

    constructor (format: nat -> string, attributes: Attributes)
      ensures this.format == format && this.attributes == attributes
    {
      this.format, this.attributes := format, attributes;
    }

    /** Forgets every recorded generation, then records those of the applied extensions. A failed list changes
        nothing; an unparseable selector fails closed, with every generation forgotten. */
    method ResolveExtensions(host: Host, listed: Option<seq<Extension>>, compile: Compiler)
      returns (out: seq<Applied>, failure: Option<Failure>, ghost sel: Selection)
      modifies this`attributes
      ensures failure == if listed.None? then Some(ListFailed)
                         else if host.selector.Unparseable? then Some(InvalidSelector(host.selector.error)) else None
      ensures listed.None? ==> attributes == old(attributes) && out == []
      ensures listed.Some? ==> Selects(host, compile, listed.value, sel)
      ensures listed.Some? ==> out == Entries(sel.applied)
      ensures listed.Some? ==> |out| == |sel.applied| && forall i :: 0 <= i < |out| ==>
                var e := sel.applied[i];
                && out[i].name == e.name && out[i].generation == e.generation && out[i].weight == e.weight
                && out[i].claimMappings == e.claimMappings && out[i].entitlements == e.entitlements
      ensures listed.Some? ==> attributes == Record(Others(old(attributes)), sel.applied, format)
    {
      out, sel := [], NOTHING;
      if listed.None? {
        return out, Some(ListFailed), sel;
      }
      DropGenerations();
      var selection, err := SelectExtensions(host, compile, listed.value);
      sel := selection;
      if err.Some? {
        return out, Some(InvalidSelector(err.value)), sel;
      }
      failure := None;
      out := RecordApplied(selection.applied);
    }

    method RecordApplied(applied: seq<Extension>) returns (out: seq<Applied>)
      modifies this`attributes
      ensures out == Entries(applied)
      ensures attributes == Record(old(attributes), applied, format)
    {
      out := [];
      for i := 0 to |applied|
        invariant out == Entries(applied[..i])
        invariant attributes == Record(old(attributes), applied[..i], format)
      {
        var e := applied[i];
        assert applied[..i + 1] == applied[..i] + [e] && applied[..i + 1][..i] == applied[..i];
        attributes := attributes[e.name + GENERATION_SUFFIX := format(e.generation)];
        out := out + [Entry(e)];
      }
      assert applied[..|applied|] == applied;
    }

    method DropGenerations()
      modifies this`attributes
      ensures attributes == Others(old(attributes))
    {
      var rest := attributes.Keys;
      while rest != {}
        invariant rest <= attributes.Keys <= old(attributes).Keys
        invariant forall a :: a in attributes ==> attributes[a] == old(attributes)[a]
        invariant forall a :: a in old(attributes) && !GenerationAttribute(a) ==> a in attributes
        invariant forall a :: a in attributes && a !in rest ==> !GenerationAttribute(a)
        decreases |rest|
      {
        var a :| a in rest;
        rest := rest - {a};
        if GenerationAttribute(a) {
          attributes := attributes - {a};
        }
      }
    }
  }

  lemma SuffixSplits(name: string)
    ensures GenerationAttribute(name + GENERATION_SUFFIX)
    ensures (name + GENERATION_SUFFIX)[..|name|] == name
  {
  }

  /** The generation attributes of a host are exactly those of the applied extensions, with their generations;
      the other attributes are as they were. */
  lemma {:induction false} GenerationsExact(
    attributes: Attributes, xs: seq<Extension>, format: nat -> string, a: string)
    requires UniqueNames(xs)
    ensures var r := Record(Others(attributes), xs, format);
            && (EndsWith(a, ".extension.generation") ==>
                  (a in r <==> exists e :: e in xs && a == e.name + ".extension.generation"))
            && (forall e :: e in xs && a == e.name + ".extension.generation" ==> a in r && r[a] == format(e.generation))
            && (!EndsWith(a, ".extension.generation") ==>
                  (a in r <==> a in attributes) && (a in r ==> r[a] == attributes[a]))
    decreases |xs|
  {
    if xs != [] {
      var x, rest := xs[|xs| - 1], xs[..|xs| - 1];
      assert xs == rest + [x];
      GenerationsExact(attributes, rest, format, a);
      SuffixSplits(x.name);
      forall e | e in rest
        ensures e.name + GENERATION_SUFFIX != x.name + GENERATION_SUFFIX
      {
        SuffixSplits(e.name);
      }
    }
  }

  // ---------------------------------------------------------------- agreement

  /** The two reconcilers agree. For one host, and siblings that the two of them may list in different orders,
      the reason an extension reports says where the host's selection put that very extension. */
  lemma ReconcilersAgree(
    host: Host, compile: Compiler, listed: seq<Extension>, siblings: seq<Extension>,
    a: Selection, b: Selection, ext: Extension, reason: Reason)
    requires Selects(host, compile, listed, a) && Selects(host, compile, siblings, b)
    requires UniqueNames(listed) && multiset(listed) == multiset(siblings)
    requires ext in siblings && Reports(compile, b, ext.name, reason)
    ensures reason == Attached <==> ext in a.applied
    ensures ext in a.applied <==> Contains(a.applied, ext.name)
    ensures reason == LimitExceeded <==> ext in a.overflow
    ensures reason.InvalidClaimMappings? <==> ext in a.invalid
    ensures reason.InvalidClaimMappings? ==> Some(reason.error) == CompileError(compile, ext)
  {
    SelectionIgnoresOrder(host, compile, listed, siblings, a, b);
    SameElements(listed, siblings, ext.name);
    SameElements(a.invalid, b.invalid, ext.name);
    if host.selector.Parsed? {
      SelectedByName(host, compile, listed, a, ext);
    }
  }

  lemma SameElements(xs: seq<Extension>, ys: seq<Extension>, name: string)
    requires multiset(xs) == multiset(ys)
    ensures forall e :: e in xs <==> e in ys
    ensures Contains(xs, name) <==> Contains(ys, name)
  {
    forall e
      ensures e in xs <==> e in ys
    {
      assert e in xs <==> e in multiset(xs);
      assert e in ys <==> e in multiset(ys);
    }
    if Contains(xs, name) || Contains(ys, name) {
      var e :| (e in xs || e in ys) && e.name == name;
      assert e in xs && e in ys;
    }
  }

  /** With unique names, searching a part of the selection by name finds the extension itself, and it is in one
      part at most. */
  lemma SelectedByName(host: Host, compile: Compiler, candidates: seq<Extension>, sel: Selection, ext: Extension)
    requires host.selector.Parsed? && Selects(host, compile, candidates, sel)
    requires UniqueNames(candidates) && ext in candidates
    ensures Contains(sel.applied, ext.name) <==> ext in sel.applied
    ensures Contains(sel.overflow, ext.name) <==> ext in sel.overflow
    ensures Contains(sel.invalid, ext.name) <==> ext in sel.invalid
    ensures forall e :: e in sel.invalid && e.name == ext.name ==> e == ext
    ensures !(ext in sel.applied && ext in sel.overflow)
    ensures ext in sel.invalid ==> ext !in sel.applied && ext !in sel.overflow
  {
    UniqueMeansOnce(candidates);
    forall e
      ensures e in sel.applied || e in sel.overflow || e in sel.invalid ==> e in candidates
    {
      SelectedMembers(host, compile, candidates, sel, e);
    }
    NamesAreIdentities(candidates, sel.applied, ext);
    NamesAreIdentities(candidates, sel.overflow, ext);
    NamesAreIdentities(candidates, sel.invalid, ext);
    AppliedOrOverflow(host, compile, candidates, sel, ext);
    SelectedMembers(host, compile, candidates, sel, ext);
  }

  lemma NamesAreIdentities(all: seq<Extension>, some: seq<Extension>, ext: Extension)
    requires forall a, b :: a in all && b in all && a.name == b.name ==> a == b
    requires ext in all && forall e :: e in some ==> e in all
    ensures Contains(some, ext.name) <==> ext in some
  {
  }

  lemma AppliedOrOverflow(host: Host, compile: Compiler, candidates: seq<Extension>, sel: Selection, e: Extension)
    requires host.selector.Parsed? && Selects(host, compile, candidates, sel) && UniqueNames(candidates)
    ensures !(e in sel.applied && e in sel.overflow)
  {
    SelectedOnce(host, compile, candidates, sel);
    assert multiset(sel.applied + sel.overflow)[e] == multiset(sel.applied)[e] + multiset(sel.overflow)[e];
  }
}
