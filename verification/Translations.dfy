/** The translations of a host in precedence order, as the last-write-wins catalog they stand for. */
module Translations {
  import opened Wrappers
  import opened Ordering

  datatype Translation = Translation(lang: string, keysAndValues: map<string, string>)

  type Spec = seq<Translation>

  datatype Source = Source(kind: string, ns: string, name: string, generation: nat, spec: Spec) {
    function Key(): string {
      kind + "/" + ns + "/" + name
    }
  }

  /** The value of each (language, key). */
  type Catalog = map<(string, string), string>

  function TranslationCatalog(t: Translation): Catalog {
    map k | k in t.keysAndValues :: (t.lang, k) := t.keysAndValues[k]
  }

  function SpecCatalog(spec: Spec): Catalog {
    if spec == [] then map[] else TranslationCatalog(spec[0]) + SpecCatalog(spec[1..])
  }

  /** What writing the sources in order leaves: later writes win. */
  function SourcesCatalog(xs: seq<Source>): Catalog {
    if xs == [] then map[] else SpecCatalog(xs[0].spec) + SourcesCatalog(xs[1..])
  }

  lemma OverrideAssociates(a: Catalog, b: Catalog, c: Catalog)
    ensures a + (b + c) == a + b + c
  {
  }

  /** A write that is overwritten everywhere leaves nothing. */
  lemma OverrideAbsorbs(a: Catalog, b: Catalog)
    requires a.Keys <= b.Keys
    ensures a + b == b
  {
  }

  lemma CatalogCons(x: Source, rest: seq<Source>)
    ensures SourcesCatalog([x] + rest) == SpecCatalog(x.spec) + SourcesCatalog(rest)
  {
    assert ([x] + rest)[1..] == rest;
  }

  lemma {:induction false} CatalogAppend(xs: seq<Source>, ys: seq<Source>)
    ensures SourcesCatalog(xs + ys) == SourcesCatalog(xs) + SourcesCatalog(ys)
    decreases |xs|
  {
    if xs == [] {
      assert xs + ys == ys;
    } else {
      var x, rest := xs[0], xs[1..];
      assert xs == [x] + rest && xs + ys == [x] + (rest + ys);
      CatalogCons(x, rest);
      CatalogCons(x, rest + ys);
      CatalogAppend(rest, ys);
      OverrideAssociates(SpecCatalog(x.spec), SourcesCatalog(rest), SourcesCatalog(ys));
    }
  }

  /** A source that another one overwrites everywhere may be left out. */
  lemma CatalogDrop(x: Source, rest: seq<Source>, d: Source)
    requires d in rest && d.spec == x.spec
    ensures SourcesCatalog([x] + rest) == SourcesCatalog(rest)
  {
    CatalogCons(x, rest);
    CatalogCovers(rest, d);
    OverrideAbsorbs(SpecCatalog(x.spec), SourcesCatalog(rest));
  }

  lemma {:induction false} CatalogCovers(xs: seq<Source>, x: Source)
    requires x in xs
    ensures SpecCatalog(x.spec).Keys <= SourcesCatalog(xs).Keys
    decreases |xs|
  {
    if x != xs[0] {
      CatalogCovers(xs[1..], x);
    }
  }

  // ---------------------------------------------------------------- order and dedupe

  /** Kubernetes names hold no slash, so a key identifies its source. */
  lemma KeyIdentifies(a: Source, b: Source)
    requires '/' !in a.ns && '/' !in a.name && '/' !in b.ns && '/' !in b.name
    ensures a.Key() == b.Key() <==> a.kind == b.kind && a.ns == b.ns && a.name == b.name
  {
    if a.Key() == b.Key() {
      assert a.Key() == (a.kind + "/" + a.ns) + ['/'] + a.name && b.Key() == (b.kind + "/" + b.ns) + ['/'] + b.name;
      SplitsOnce(a.kind + "/" + a.ns, a.name, b.kind + "/" + b.ns, b.name, '/');
      assert a.kind + "/" + a.ns == a.kind + ['/'] + a.ns && b.kind + "/" + b.ns == b.kind + ['/'] + b.ns;
      SplitsOnce(a.kind, a.ns, b.kind, b.ns, '/');
    }
  }

  predicate NameLe(a: Source, b: Source) {
    StringLe(a.name, b.name)
  }

  lemma NameLeIsPreorder()
    ensures TotalPreorder(NameLe)
  {
    StringLeIsPreorder();
  }

  function Keys(xs: seq<Source>): set<string> {
    set x | x in xs :: x.Key()
  }

  function WithoutKeys(xs: seq<Source>, keys: set<string>): seq<Source> {
    if xs == [] then []
    else (if xs[0].Key() in keys then [] else [xs[0]]) + WithoutKeys(xs[1..], keys)
  }

  function DefaultSeq(default: Option<Source>): seq<Source> {
    if default.Some? then [default.value] else []
  }

  /** Everything that was attached, duplicates included, from lowest to highest precedence. */
  function Everything(default: Option<Source>, self: seq<Source>, declared: seq<Source>): seq<Source> {
    DefaultSeq(default) + self + declared
  }

  /** The same without the self-attached sources that the host also declares. */
  function Candidates(default: Option<Source>, self: seq<Source>, declared: seq<Source>): seq<Source> {
    DefaultSeq(default) + WithoutKeys(self, Keys(declared)) + declared
  }

  predicate Names(xs: seq<Source>, name: string) {
    exists x :: x in xs && x.name == name
  }

  /** The highest-precedence source of that name. */
  function Winner(xs: seq<Source>, name: string): Source
    requires Names(xs, name)
  {
    if Names(xs[1..], name) then Winner(xs[1..], name) else xs[0]
  }

  /** The last source of every name, in order. */
  function LastPerName(xs: seq<Source>): seq<Source> {
    if xs == [] then []
    else (if Names(xs[1..], xs[0].name) then [] else [xs[0]]) + LastPerName(xs[1..])
  }

  datatype Conflict = Conflict(key: string, winner: string, name: string)

  /** One entry for each source that loses its name to a source of another key. */
  function Conflicts(xs: seq<Source>): seq<Conflict> {
    if xs == [] then []
    else
      var c := xs[0];
      Conflicts(xs[1..])
      + if Names(xs[1..], c.name) && Winner(xs[1..], c.name).Key() != c.Key()
        then [Conflict(c.Key(), Winner(xs[1..], c.name).Key(), c.name)] else []
  }

  /** `self` is an arrangement of the self-attached sources by name. */
  ghost predicate ByName(self: seq<Source>, selfAttached: seq<Source>) {
    SortedBy(NameLe, self) && multiset(self) == multiset(selfAttached)
  }

  /** Go's %q of a name. */
  type Quote = string -> string

  function Text(c: Conflict, quote: Quote): string {
    c.key + " and " + c.winner + " both map to internal translation suffix " + quote(c.name) + "; using " + c.winner
  }

  function Texts(cs: seq<Conflict>, quote: Quote): (r: seq<string>)
    ensures |r| == |cs|
  {
    if cs == [] then [] else [Text(cs[0], quote)] + Texts(cs[1..], quote)
  }

  function Join(lines: seq<string>): string {
    if lines == [] then "" else if |lines| == 1 then lines[0] else lines[0] + "; " + Join(lines[1..])
  }

  /** The collision lists the conflicts' texts, sorted. */
  ghost predicate Describes(collision: string, cs: seq<Conflict>, quote: Quote) {
    exists lines ::
      SortedBy(StringLe, lines) && multiset(lines) == multiset(Texts(cs, quote)) && collision == Join(lines)
  }

  /** Sorts a clone of the self-attached sources, drops those that are declared too, then walks from the
      highest precedence down: the first claimant of a name wins it, and the collision describes each loser.
      The sort of equal names is unstable, so any order by name is possible. */
  method OrderTranslationSources(
    default: Option<Source>, selfAttached: seq<Source>, declared: seq<Source>, quote: Quote)
    returns (ordered: seq<Source>, collision: string)
    ensures exists self :: ByName(self, selfAttached)
                           && ordered == LastPerName(Candidates(default, self, declared))
                           && Describes(collision, Conflicts(Candidates(default, self, declared)), quote)
  {
    NameLeIsPreorder();
    var sorted := Sort(selfAttached, NameLe);
    assert ByName(sorted, selfAttached);
    var candidates := CollectCandidates(default, sorted, declared);
    var keep, conflicts := PickWinners(candidates);
    ordered := CollectKept(candidates, keep);
    StringLeIsPreorder();
    var lines := Sort(Texts(conflicts, quote), StringLe);
    collision := Join(lines);
  }

  /** No later source has the name of source `i`. */
  predicate LastAt(xs: seq<Source>, i: nat)
    requires i < |xs|
  {
    forall j :: i < j < |xs| ==> xs[j].name != xs[i].name
  }

  ghost predicate WinnersOf(xs: seq<Source>, winner: map<string, Source>) {
    forall name :: (name in winner <==> Names(xs, name)) && (name in winner ==> winner[name] == Winner(xs, name))
  }

  method PickWinners(candidates: seq<Source>) returns (keep: array<bool>, conflicts: seq<Conflict>)
    ensures keep.Length == |candidates|
    ensures forall i :: 0 <= i < |candidates| ==> (keep[i] <==> LastAt(candidates, i))
    ensures conflicts == Conflicts(candidates)
  {
    var n := |candidates|;
    var winner: map<string, Source> := map[];
    keep := new bool[n](_ => false);
    conflicts := [];
    var i := n;
    while i > 0
      invariant 0 <= i <= n
      invariant WinnersOf(candidates[i..], winner)
      invariant forall j :: 0 <= j < n ==> (keep[j] <==> i <= j && LastAt(candidates, j))
      invariant conflicts == Conflicts(candidates[i..])
    {
      i := i - 1;
      var c := candidates[i];
      PickStep(candidates, i, winner);
      var prev := if c.name in winner then winner[c.name] else c;
      if c.name !in winner {
        winner := winner[c.name := c];
        keep[i] := true;
      } else if prev.Key() != c.Key() {
        conflicts := conflicts + [Conflict(c.Key(), prev.Key(), c.name)];
      }
    }
    assert candidates[0..] == candidates;
  }

  lemma PickStep(xs: seq<Source>, i: nat, winner: map<string, Source>)
    requires i < |xs| && WinnersOf(xs[i + 1..], winner)
    ensures var c := xs[i];
            && (c.name !in winner <==> LastAt(xs, i))
            && WinnersOf(xs[i..], if c.name in winner then winner else winner[c.name := c])
            && Conflicts(xs[i..])
               == Conflicts(xs[i + 1..]) + if c.name in winner && winner[c.name].Key() != c.Key()
                                           then [Conflict(c.Key(), winner[c.name].Key(), c.name)] else []
  {
    assert xs[i..] == [xs[i]] + xs[i + 1..];
    LastPerNameStep(xs, i);
    WinnersStep(xs[i], xs[i + 1..], winner);
  }

  lemma WinnersStep(c: Source, rest: seq<Source>, winner: map<string, Source>)
    requires WinnersOf(rest, winner)
    ensures WinnersOf([c] + rest, if c.name in winner then winner else winner[c.name := c])
    ensures Conflicts([c] + rest)
         == Conflicts(rest) + if c.name in winner && winner[c.name].Key() != c.Key()
                              then [Conflict(c.Key(), winner[c.name].Key(), c.name)] else []
  {
    assert ([c] + rest)[1..] == rest;
    forall name
      ensures Names([c] + rest, name) <==> name == c.name || Names(rest, name)
    {
      assert c in [c] + rest;
    }
  }

  method CollectCandidates(default: Option<Source>, sorted: seq<Source>, declared: seq<Source>)
    returns (candidates: seq<Source>)
    ensures candidates == Candidates(default, sorted, declared)
  {
    candidates := DefaultSeq(default);
    var i := 0;
    while i < |sorted|
      invariant 0 <= i <= |sorted|
      invariant candidates + WithoutKeys(sorted[i..], Keys(declared))
             == DefaultSeq(default) + WithoutKeys(sorted, Keys(declared))
    {
      assert sorted[i..][1..] == sorted[i + 1..];
      if sorted[i].Key() !in Keys(declared) {
        candidates := candidates + [sorted[i]];
      }
      i := i + 1;
    }
    candidates := candidates + declared;
  }

  method CollectKept(candidates: seq<Source>, keep: array<bool>) returns (ordered: seq<Source>)
    requires keep.Length == |candidates|
    requires forall i :: 0 <= i < |candidates| ==> (keep[i] <==> LastAt(candidates, i))
    ensures ordered == LastPerName(candidates)
  {
    ordered := [];
    var i := 0;
    while i < |candidates|
      invariant 0 <= i <= |candidates|
      invariant ordered + LastPerName(candidates[i..]) == LastPerName(candidates)
    {
      KeptStep(ordered, candidates, i);
      if keep[i] {
        ordered := ordered + [candidates[i]];
      }
      i := i + 1;
    }
  }

  lemma KeptStep(ordered: seq<Source>, xs: seq<Source>, i: nat)
    requires i < |xs|
    ensures ordered + LastPerName(xs[i..])
         == (if LastAt(xs, i) then ordered + [xs[i]] else ordered) + LastPerName(xs[i + 1..])
  {
    LastPerNameStep(xs, i);
  }

  lemma LastPerNameStep(xs: seq<Source>, i: nat)
    requires i < |xs|
    ensures LastAt(xs, i) <==> !Names(xs[i + 1..], xs[i].name)
    ensures LastPerName(xs[i..]) == (if LastAt(xs, i) then [xs[i]] else []) + LastPerName(xs[i + 1..])
  {
    assert xs[i..][1..] == xs[i + 1..];
    if !LastAt(xs, i) {
      var j :| i < j < |xs| && xs[j].name == xs[i].name;
      assert xs[j] in xs[i + 1..];
    }
  }

  // ---------------------------------------------------------------- what the order means

  lemma {:induction false} WinnerNames(xs: seq<Source>, name: string)
    requires Names(xs, name)
    ensures Winner(xs, name) in xs && Winner(xs, name).name == name
    decreases |xs|
  {
    if Names(xs[1..], name) {
      WinnerNames(xs[1..], name);
    }
  }

  /** The result holds every name once: exactly the winners. */
  lemma {:induction false} OrderedAreWinners(xs: seq<Source>)
    ensures forall s :: s in LastPerName(xs) <==> s in xs && s == Winner(xs, s.name)
    ensures forall i, j :: 0 <= i < j < |LastPerName(xs)| ==> LastPerName(xs)[i].name != LastPerName(xs)[j].name
    decreases |xs|
  {
    if xs != [] {
      var x, rest := xs[0], xs[1..];
      assert xs == [x] + rest;
      OrderedAreWinners(rest);
      forall s
        ensures s in LastPerName(xs) <==> s in xs && s == Winner(xs, s.name)
      {
        if s in rest {
          assert Names(rest, s.name);
        } else if Names(rest, s.name) {
          WinnerNames(rest, s.name);
        }
      }
    }
  }

  /** The collision is empty exactly when sources of one name are one source. */
  lemma {:induction false} NoConflictIff(xs: seq<Source>)
    ensures Conflicts(xs) == []
       <==> forall a, b :: a in xs && b in xs && a.name == b.name ==> a.Key() == b.Key()
    decreases |xs|
  {
    if xs != [] {
      var c, rest := xs[0], xs[1..];
      NoConflictIff(rest);
      assert xs == [c] + rest;
      if Names(rest, c.name) {
        WinnerNames(rest, c.name);
      }
    }
  }

  /** Each conflict is one source that shares its name with a winner of another key, and every such source
      is reported. */
  lemma {:induction false} ConflictsExact(xs: seq<Source>, conflict: Conflict)
    ensures conflict in Conflicts(xs)
       <==> exists c :: c in xs && c.name == conflict.name && c.Key() == conflict.key
                        && Winner(xs, c.name).Key() == conflict.winner && conflict.winner != conflict.key
    decreases |xs|
  {
    if xs != [] {
      var c, rest := xs[0], xs[1..];
      ConflictsExact(rest, conflict);
      assert xs == [c] + rest;
    }
  }

  /** The collision is empty exactly when there is no conflict, and it says the same for every arrangement of
      the conflicts. */
  lemma CollisionIsCanonical(
    collision: string, cs: seq<Conflict>, other: string, ds: seq<Conflict>, quote: Quote)
    requires Describes(collision, cs, quote) && Describes(other, ds, quote)
    ensures collision == "" <==> cs == []
    ensures multiset(cs) == multiset(ds) ==> collision == other
  {
    var lines :| SortedBy(StringLe, lines) && multiset(lines) == multiset(Texts(cs, quote)) && collision == Join(lines);
    var more :| SortedBy(StringLe, more) && multiset(more) == multiset(Texts(ds, quote)) && other == Join(more);
    assert |lines| == |multiset(lines)| == |multiset(Texts(cs, quote))| == |cs|;
    if cs != [] {
      assert lines[0] in multiset(Texts(cs, quote));
      TextsNonEmpty(cs, quote);
    }
    if multiset(cs) == multiset(ds) {
      TextsPermute(cs, ds, quote);
      forall a, b | StringLe(a, b) && StringLe(b, a)
        ensures a == b
      {
        StringLeTotal(a, b);
      }
      SortedIsUnique(StringLe, lines, more);
    }
  }

  lemma {:induction false} JoinHolds(lines: seq<string>, line: string)
    requires line in lines
    ensures exists before, after :: Join(lines) == before + line + after
    decreases |lines|
  {
    if |lines| == 1 {
      assert Join(lines) == "" + line + "";
    } else if line == lines[0] {
      assert Join(lines) == "" + line + ("; " + Join(lines[1..]));
    } else {
      JoinHolds(lines[1..], line);
      var before, after :| Join(lines[1..]) == before + line + after;
      assert Join(lines) == (lines[0] + "; " + before) + line + after;
    }
  }

  /** The collision names both sources of every conflict, in these words, and says which one is used. */
  lemma CollisionNamesBoth(collision: string, cs: seq<Conflict>, quote: Quote, c: Conflict)
    requires Describes(collision, cs, quote) && c in cs
    ensures exists before, after ::
              collision == before + (c.key + " and " + c.winner + " both map to internal translation suffix "
                                     + quote(c.name) + "; using " + c.winner) + after
  {
    var lines :| SortedBy(StringLe, lines) && multiset(lines) == multiset(Texts(cs, quote)) && collision == Join(lines);
    TextOf(cs, quote, c);
    assert Text(c, quote) in multiset(lines);
    JoinHolds(lines, Text(c, quote));
  }

  lemma {:induction false} TextOf(cs: seq<Conflict>, quote: Quote, c: Conflict)
    requires c in cs
    ensures Text(c, quote) in Texts(cs, quote)
    decreases |cs|
  {
    if cs[0] != c {
      TextOf(cs[1..], quote, c);
    }
  }

  lemma {:induction false} TextsNonEmpty(cs: seq<Conflict>, quote: Quote)
    ensures forall text :: text in Texts(cs, quote) ==> text != ""
    decreases |cs|
  {
    if cs != [] {
      TextsNonEmpty(cs[1..], quote);
      assert |Text(cs[0], quote)| > 0;
    }
  }

  lemma {:induction false} TextsPermute(cs: seq<Conflict>, ds: seq<Conflict>, quote: Quote)
    requires multiset(cs) == multiset(ds)
    ensures multiset(Texts(cs, quote)) == multiset(Texts(ds, quote))
    decreases |cs|
  {
    SameSize(cs, ds);
    if cs != [] {
      var x, tail := cs[0], cs[1..];
      assert cs == [x] + tail;
      TextsCons(x, tail, quote);
      assert x in multiset(ds);
      var rest := TextsWithout(ds, x, quote);
      Cancels(multiset(tail), multiset(rest), x);
      TextsPermute(tail, rest, quote);
    }
  }

  lemma SameSize(cs: seq<Conflict>, ds: seq<Conflict>)
    requires multiset(cs) == multiset(ds)
    ensures |cs| == |ds|
  {
    assert |cs| == |multiset(cs)| == |multiset(ds)| == |ds|;
  }

  lemma TextsCons(c: Conflict, rest: seq<Conflict>, quote: Quote)
    ensures multiset([c] + rest) == multiset{c} + multiset(rest)
    ensures multiset(Texts([c] + rest, quote)) == multiset{Text(c, quote)} + multiset(Texts(rest, quote))
  {
    assert ([c] + rest)[1..] == rest;
  }

  lemma Cancels<T>(a: multiset<T>, b: multiset<T>, x: T)
    requires a + multiset{x} == b + multiset{x}
    ensures a == b
  {
    assert forall y :: (a + multiset{x})[y] == a[y] + multiset{x}[y];
    assert forall y :: (b + multiset{x})[y] == b[y] + multiset{x}[y];
  }

  /** The list without one occurrence of a conflict, and its texts. */
  lemma {:induction false} TextsWithout(cs: seq<Conflict>, x: Conflict, quote: Quote) returns (rest: seq<Conflict>)
    requires x in cs
    ensures multiset(cs) == multiset(rest) + multiset{x}
    ensures multiset(Texts(cs, quote)) == multiset(Texts(rest, quote)) + multiset{Text(x, quote)}
    decreases |cs|
  {
    var head, tail := cs[0], cs[1..];
    assert cs == [head] + tail;
    TextsCons(head, tail, quote);
    if head == x {
      rest := tail;
    } else {
      var others := TextsWithout(tail, x, quote);
      rest := [head] + others;
      TextsCons(head, others, quote);
    }
  }

  /** Equal keys name one object, so they carry one spec. */
  ghost predicate OneSpecPerKey(xs: seq<Source>) {
    forall a, b :: a in xs && b in xs && a.Key() == b.Key() ==> a.spec == b.spec
  }

  lemma WithoutKeysCons(x: Source, rest: seq<Source>, keys: set<string>, after: seq<Source>)
    ensures WithoutKeys([x] + rest, keys) + after
         == if x.Key() in keys then WithoutKeys(rest, keys) + after else [x] + (WithoutKeys(rest, keys) + after)
  {
    assert ([x] + rest)[1..] == rest;
  }

  /** A declared source overwrites its self-attached duplicate everywhere. */
  lemma DeclaredCovers(x: Source, rest: seq<Source>, declared: seq<Source>)
    requires OneSpecPerKey([x] + (rest + declared)) && x.Key() in Keys(declared)
    ensures SourcesCatalog([x] + (rest + declared)) == SourcesCatalog(rest + declared)
  {
    var d :| d in declared && d.Key() == x.Key();
    assert d in [x] + (rest + declared) && x in [x] + (rest + declared);
    CatalogDrop(x, rest + declared, d);
  }

  lemma {:induction false} DropDeclared(self: seq<Source>, declared: seq<Source>)
    requires OneSpecPerKey(self + declared)
    ensures SourcesCatalog(WithoutKeys(self, Keys(declared)) + declared) == SourcesCatalog(self + declared)
    decreases |self|
  {
    if self == [] {
      assert WithoutKeys(self, Keys(declared)) == self;
    } else {
      var x, rest := self[0], self[1..];
      assert self == [x] + rest && self + declared == [x] + (rest + declared);
      DropDeclared(rest, declared);
      WithoutKeysCons(x, rest, Keys(declared), declared);
      if x.Key() in Keys(declared) {
        DeclaredCovers(x, rest, declared);
      } else {
        CatalogCons(x, WithoutKeys(rest, Keys(declared)) + declared);
        CatalogCons(x, rest + declared);
      }
    }
  }

  lemma {:induction false} DropLosers(xs: seq<Source>)
    requires OneSpecPerKey(xs) && Conflicts(xs) == []
    ensures SourcesCatalog(LastPerName(xs)) == SourcesCatalog(xs)
    decreases |xs|
  {
    if xs != [] {
      var x, rest := xs[0], xs[1..];
      assert xs == [x] + rest;
      NoConflictIff(xs);
      DropLosers(rest);
      if Names(rest, x.name) {
        var d :| d in rest && d.name == x.name;
        assert LastPerName(xs) == LastPerName(rest);
        CatalogDrop(x, rest, d);
      } else {
        CatalogCons(x, LastPerName(rest));
        CatalogCons(x, rest);
      }
    }
  }

  /** Dedupe preserves meaning: without a collision, the returned sources make the same catalog as writing
      the default, then every self-attached source, then every declared one, duplicates included. */
  lemma DedupePreservesCatalog(default: Option<Source>, self: seq<Source>, declared: seq<Source>)
    requires OneSpecPerKey(Everything(default, self, declared))
    requires Conflicts(Candidates(default, self, declared)) == []
    ensures SourcesCatalog(LastPerName(Candidates(default, self, declared)))
         == SourcesCatalog(Everything(default, self, declared))
  {
    CandidatesAreAttached(default, self, declared);
    DropLosers(Candidates(default, self, declared));
    DropDeclared(self, declared);
    AppendAfter(DefaultSeq(default), WithoutKeys(self, Keys(declared)), declared);
    AppendAfter(DefaultSeq(default), self, declared);
  }

  lemma AppendAfter(d: seq<Source>, f: seq<Source>, r: seq<Source>)
    ensures SourcesCatalog(d + f + r) == SourcesCatalog(d) + SourcesCatalog(f + r)
  {
    assert d + f + r == d + (f + r);
    CatalogAppend(d, f + r);
  }

  lemma CandidatesAreAttached(default: Option<Source>, self: seq<Source>, declared: seq<Source>)
    ensures forall s :: s in Candidates(default, self, declared) ==> s in Everything(default, self, declared)
  {
    WithoutKeysSubset(self, Keys(declared));
  }

  lemma {:induction false} WithoutKeysSubset(xs: seq<Source>, keys: set<string>)
    ensures forall s :: s in WithoutKeys(xs, keys) <==> s in xs && s.Key() !in keys
    decreases |xs|
  {
    if xs != [] {
      WithoutKeysSubset(xs[1..], keys);
      assert xs == [xs[0]] + xs[1..];
    }
  }

  /** The winners of a list end with the winners of its end. */
  lemma {:induction false} LastPerNameAppend(xs: seq<Source>, ys: seq<Source>) returns (before: seq<Source>)
    ensures LastPerName(xs + ys) == before + LastPerName(ys)
    decreases |xs|
  {
    if xs == [] {
      before := [];
      assert xs + ys == ys;
    } else {
      var rest := LastPerNameAppend(xs[1..], ys);
      assert (xs + ys)[1..] == xs[1..] + ys;
      before := (if Names((xs + ys)[1..], xs[0].name) then [] else [xs[0]]) + rest;
    }
  }

  /** A host-declared value beats anything a self-attached translation or the default ships, whatever names of
      theirs collide; only two declared sources of one name can hide a declared value. */
  lemma DeclaredWins(default: Option<Source>, self: seq<Source>, declared: seq<Source>, lk: (string, string))
    requires OneSpecPerKey(declared) && Conflicts(declared) == []
    requires lk in SourcesCatalog(declared)
    ensures var c := SourcesCatalog(LastPerName(Candidates(default, self, declared)));
            lk in c && c[lk] == SourcesCatalog(declared)[lk]
  {
    var front := DefaultSeq(default) + WithoutKeys(self, Keys(declared));
    var before := LastPerNameAppend(front, declared);
    CatalogAppend(before, LastPerName(declared));
    DropLosers(declared);
  }

  // ---------------------------------------------------------------- consent wording

  const CONSENT_PREFIX := "consent."

  predicate ConsentKey(k: string) {
    CONSENT_PREFIX <= k
  }

  function StripConsent(t: Translation): Translation {
    t.(keysAndValues := map k | k in t.keysAndValues && !ConsentKey(k) :: t.keysAndValues[k])
  }

  function WithoutConsent(spec: Spec): Spec {
    if spec == [] then [] else [StripConsent(spec[0])] + WithoutConsent(spec[1..])
  }

  /** The consent keys of one translation, as reported. */
  function ConsentPairs(t: Translation, keys: set<string>): multiset<string> {
    multiset(set k | k in keys && ConsentKey(k) :: t.lang + "/" + k)
  }

  function Dropped(spec: Spec): multiset<string> {
    if spec == [] then multiset{} else ConsentPairs(spec[0], spec[0].keysAndValues.Keys) + Dropped(spec[1..])
  }

  function NonConsent(c: Catalog): Catalog {
    map lk | lk in c && !ConsentKey(lk.1) :: c[lk]
  }

  lemma NonConsentOverride(a: Catalog, b: Catalog)
    ensures NonConsent(a + b) == NonConsent(a) + NonConsent(b)
  {
  }

  lemma StripIsNonConsent(t: Translation)
    ensures TranslationCatalog(StripConsent(t)) == NonConsent(TranslationCatalog(t))
  {
  }

  /** The filter removes every consent key and conserves all the others. */
  lemma {:induction false} FilterConserves(spec: Spec)
    ensures SpecCatalog(WithoutConsent(spec)) == NonConsent(SpecCatalog(spec))
    decreases |spec|
  {
    if spec != [] {
      FilterConserves(spec[1..]);
      StripIsNonConsent(spec[0]);
      NonConsentOverride(TranslationCatalog(spec[0]), SpecCatalog(spec[1..]));
      assert WithoutConsent(spec)[1..] == WithoutConsent(spec[1..]);
    }
  }

  lemma {:induction false} NothingDropped(spec: Spec)
    requires Dropped(spec) == multiset{}
    ensures WithoutConsent(spec) == spec
    decreases |spec|
  {
    if spec != [] {
      var t := spec[0];
      assert ConsentPairs(t, t.keysAndValues.Keys) <= Dropped(spec);
      forall k | k in t.keysAndValues
        ensures !ConsentKey(k)
      {
        assert ConsentKey(k) ==> t.lang + "/" + k in ConsentPairs(t, t.keysAndValues.Keys);
      }
      assert StripConsent(t).keysAndValues == t.keysAndValues;
      NothingDropped(spec[1..]);
    }
  }

  /** A reported pair is the language and key of a value whose key starts with "consent.". */
  ghost predicate Reported(spec: Spec, pair: string) {
    exists t, k :: t in spec && k in t.keysAndValues && "consent." <= k && pair == t.lang + "/" + k
  }

  lemma {:induction false} DroppedInWords(spec: Spec, pair: string)
    ensures pair in Dropped(spec) <==> Reported(spec, pair)
    decreases |spec|
  {
    if spec != [] {
      var t := spec[0];
      assert spec == [t] + spec[1..];
      DroppedInWords(spec[1..], pair);
      assert pair in ConsentPairs(t, t.keysAndValues.Keys)
        <==> exists k :: k in t.keysAndValues && ConsentKey(k) && pair == t.lang + "/" + k;
    }
  }

  /** Lists the consent keys of one translation; the map is visited in some order. */
  method ListConsent(t: Translation) returns (dropped: seq<string>)
    ensures multiset(dropped) == ConsentPairs(t, t.keysAndValues.Keys)
  {
    dropped := [];
    var rest := t.keysAndValues.Keys;
    while rest != {}
      invariant rest <= t.keysAndValues.Keys
      invariant multiset(dropped) == ConsentPairs(t, t.keysAndValues.Keys - rest)
      decreases |rest|
    {
      var k :| k in rest;
      PairsStep(t, t.keysAndValues.Keys - rest, k);
      assert t.keysAndValues.Keys - rest + {k} == t.keysAndValues.Keys - (rest - {k});
      if ConsentKey(k) {
        dropped := dropped + [t.lang + "/" + k];
      }
      rest := rest - {k};
    }
    assert t.keysAndValues.Keys - rest == t.keysAndValues.Keys;
  }

  lemma PairsStep(t: Translation, keys: set<string>, k: string)
    requires k !in keys
    ensures ConsentPairs(t, keys + {k})
         == ConsentPairs(t, keys) + if ConsentKey(k) then multiset{t.lang + "/" + k} else multiset{}
  {
    var a := set x | x in keys && ConsentKey(x) :: t.lang + "/" + x;
    var b := set x | x in keys + {k} && ConsentKey(x) :: t.lang + "/" + x;
    var pair := t.lang + "/" + k;
    forall x | t.lang + "/" + x == pair
      ensures x == k
    {
      assert x == (t.lang + "/" + x)[|t.lang| + 1..] && k == pair[|t.lang| + 1..];
    }
    if ConsentKey(k) {
      assert b == a + {pair};
    } else {
      assert b == a;
    }
  }

  /** A copy without the consent keys, and the removed lang/key pairs, sorted. */
  method WithoutConsentKeys(spec: Spec) returns (filtered: Spec, dropped: seq<string>)
    ensures filtered == WithoutConsent(spec)
    ensures SortedBy(StringLe, dropped) && multiset(dropped) == Dropped(spec)
    ensures forall pair :: pair in dropped <==> Reported(spec, pair)
  {
    dropped := [];
    var i := 0;
    while i < |spec|
      invariant 0 <= i <= |spec|
      invariant multiset(dropped) + Dropped(spec[i..]) == Dropped(spec)
    {
      assert spec[i..][1..] == spec[i + 1..];
      var pairs := ListConsent(spec[i]);
      dropped := dropped + pairs;
      i := i + 1;
    }
    if |dropped| == 0 {
      assert Dropped(spec) == multiset{};
      NothingDropped(spec);
      ListedInWords(spec, dropped);
      return spec, dropped;
    }
    StringLeIsPreorder();
    dropped := Sort(dropped, StringLe);
    ListedInWords(spec, dropped);
    filtered := StripAll(spec);
  }

  lemma ListedInWords(spec: Spec, dropped: seq<string>)
    requires multiset(dropped) == Dropped(spec)
    ensures forall pair :: pair in dropped <==> Reported(spec, pair)
  {
    forall pair
      ensures pair in dropped <==> Reported(spec, pair)
    {
      DroppedInWords(spec, pair);
      assert pair in dropped <==> pair in multiset(dropped);
    }
  }

  method StripAll(spec: Spec) returns (filtered: Spec)
    ensures filtered == WithoutConsent(spec)
  {
    filtered := [];
    var i := 0;
    while i < |spec|
      invariant 0 <= i <= |spec|
      invariant filtered + WithoutConsent(spec[i..]) == WithoutConsent(spec)
    {
      assert spec[i..][1..] == spec[i + 1..];
      filtered := filtered + [StripConsent(spec[i])];
      i := i + 1;
    }
  }

  /** The self-attached sources as they enter the order: those the host does not declare lose their
      consent keys. */
  function Admitted(s: Source, keys: set<string>): Source {
    if s.Key() in keys then s else s.(spec := WithoutConsent(s.spec))
  }

  function AdmittedAll(self: seq<Source>, keys: set<string>): seq<Source> {
    seq(|self|, i requires 0 <= i < |self| => Admitted(self[i], keys))
  }

  /** `t` without its consent keys, value by value. */
  ghost predicate ConsentTaken(t: Translation, t': Translation) {
    && t'.lang == t.lang
    && forall k :: (k in t'.keysAndValues <==> k in t.keysAndValues && !("consent." <= k))
                   && (k in t'.keysAndValues ==> t'.keysAndValues[k] == t.keysAndValues[k])
  }

  /** A source that keeps its identity and loses its consent keys and nothing else. */
  ghost predicate SourceTaken(s: Source, s': Source) {
    && s'.kind == s.kind && s'.ns == s.ns && s'.name == s.name && s'.generation == s.generation
    && |s'.spec| == |s.spec| && forall j :: 0 <= j < |s.spec| ==> ConsentTaken(s.spec[j], s'.spec[j])
  }

  lemma {:induction false} WithoutConsentTakes(spec: Spec)
    ensures |WithoutConsent(spec)| == |spec|
    ensures forall j :: 0 <= j < |spec| ==> ConsentTaken(spec[j], WithoutConsent(spec)[j])
    decreases |spec|
  {
    if spec != [] {
      WithoutConsentTakes(spec[1..]);
      forall j | 0 < j < |spec|
        ensures ConsentTaken(spec[j], WithoutConsent(spec)[j])
      {
        assert spec[j] == spec[1..][j - 1] && WithoutConsent(spec)[j] == WithoutConsent(spec[1..])[j - 1];
      }
    }
  }

  /** Filters in place. A declared source stays as it is; any other keeps its identity, its languages and every value
      whose key does not start with "consent.". */
  method AdmitSelfAttached(self: seq<Source>, declared: seq<Source>) returns (admitted: seq<Source>)
    ensures admitted == AdmittedAll(self, Keys(declared))
    ensures |admitted| == |self|
    ensures forall i :: 0 <= i < |self| ==>
              if exists d :: d in declared && d.Key() == self[i].Key() then admitted[i] == self[i]
              else SourceTaken(self[i], admitted[i])
  {
    admitted := self;
    var i := 0;
    while i < |self|
      invariant 0 <= i <= |self| == |admitted|
      invariant forall j :: 0 <= j < |self| ==>
                  admitted[j] == if j < i then Admitted(self[j], Keys(declared)) else self[j]
    {
      if admitted[i].Key() !in Keys(declared) {
        var filtered, dropped := WithoutConsentKeys(admitted[i].spec);
        if |dropped| > 0 {
          admitted := admitted[i := admitted[i].(spec := filtered)];
        } else {
          assert Dropped(admitted[i].spec) == multiset{};
          NothingDropped(admitted[i].spec);
        }
      }
      i := i + 1;
    }
    forall i | 0 <= i < |self| && self[i].Key() !in Keys(declared)
      ensures SourceTaken(self[i], admitted[i])
    {
      WithoutConsentTakes(self[i].spec);
    }
  }

  lemma {:induction false} CatalogOrigin(xs: seq<Source>, lk: (string, string))
    requires lk in SourcesCatalog(xs)
    ensures exists s :: s in xs && lk in SpecCatalog(s.spec) && SpecCatalog(s.spec)[lk] == SourcesCatalog(xs)[lk]
    decreases |xs|
  {
    assert xs == [xs[0]] + xs[1..];
    if lk in SourcesCatalog(xs[1..]) {
      CatalogOrigin(xs[1..], lk);
    }
  }

  /** Consent provenance, end to end: whatever names collide and whatever is both self-attached and
      declared, every consent value of the resolved catalog is the default's or a host-declared one. */
  lemma ConsentProvenance(
    default: Option<Source>, attached: seq<Source>, self: seq<Source>, declared: seq<Source>, lk: (string, string))
    requires multiset(self) == multiset(AdmittedAll(attached, Keys(declared)))
    requires ConsentKey(lk.1) && lk in SourcesCatalog(LastPerName(Candidates(default, self, declared)))
    ensures exists s :: s in DefaultSeq(default) + declared && lk in SpecCatalog(s.spec)
              && SpecCatalog(s.spec)[lk] == SourcesCatalog(LastPerName(Candidates(default, self, declared)))[lk]
  {
    var cs := Candidates(default, self, declared);
    CatalogOrigin(LastPerName(cs), lk);
    OrderedAreWinners(cs);
    var s :| s in LastPerName(cs) && lk in SpecCatalog(s.spec)
             && SpecCatalog(s.spec)[lk] == SourcesCatalog(LastPerName(cs))[lk];
    assert s in cs;
    WithoutKeysSubset(self, Keys(declared));
    if s !in DefaultSeq(default) + declared {
      assert s in multiset(self);
      AdmittedIsFree(attached, Keys(declared), s, lk);
    }
  }

  // ---------------------------------------------------------------- nothing else is lost

  /** Two sources of one name whose catalogs agree outside consent. */
  ghost predicate SameOutside(a: Source, b: Source) {
    a.name == b.name && NonConsent(SpecCatalog(a.spec)) == NonConsent(SpecCatalog(b.spec))
  }

  ghost predicate AllSameOutside(xs: seq<Source>, ys: seq<Source>) {
    |xs| == |ys| && forall i :: 0 <= i < |xs| ==> SameOutside(xs[i], ys[i])
  }

  lemma HeadOutside(x: Source, y: Source, xs: seq<Source>, ys: seq<Source>)
    requires SameOutside(x, y) && NonConsent(SourcesCatalog(xs)) == NonConsent(SourcesCatalog(ys))
    ensures NonConsent(SourcesCatalog([x] + xs)) == NonConsent(SourcesCatalog([y] + ys))
  {
    CatalogCons(x, xs);
    CatalogCons(y, ys);
    NonConsentOverride(SpecCatalog(x.spec), SourcesCatalog(xs));
    NonConsentOverride(SpecCatalog(y.spec), SourcesCatalog(ys));
  }

  lemma {:induction false} SameCatalogOutside(xs: seq<Source>, ys: seq<Source>)
    requires AllSameOutside(xs, ys)
    ensures NonConsent(SourcesCatalog(LastPerName(xs))) == NonConsent(SourcesCatalog(LastPerName(ys)))
    decreases |xs|
  {
    if xs != [] {
      TailSameOutside(xs, ys);
      SameCatalogOutside(xs[1..], ys[1..]);
      SameNames(xs[1..], ys[1..], xs[0].name);
      var rest, others := LastPerName(xs[1..]), LastPerName(ys[1..]);
      if Names(xs[1..], xs[0].name) {
        assert LastPerName(xs) == rest && LastPerName(ys) == others;
      } else {
        assert LastPerName(xs) == [xs[0]] + rest && LastPerName(ys) == [ys[0]] + others;
        HeadOutside(xs[0], ys[0], rest, others);
      }
    }
  }

  lemma TailSameOutside(xs: seq<Source>, ys: seq<Source>)
    requires AllSameOutside(xs, ys) && xs != []
    ensures SameOutside(xs[0], ys[0]) && xs[0].name == ys[0].name && AllSameOutside(xs[1..], ys[1..])
  {
    assert forall i :: 0 <= i < |xs| - 1 ==> xs[1..][i] == xs[i + 1] && ys[1..][i] == ys[i + 1];
  }

  lemma SameNames(xs: seq<Source>, ys: seq<Source>, name: string)
    requires AllSameOutside(xs, ys)
    ensures Names(xs, name) <==> Names(ys, name)
  {
    if Names(xs, name) {
      var i :| 0 <= i < |xs| && xs[i].name == name;
      assert SameOutside(xs[i], ys[i]) && ys[i] in ys;
    }
    if Names(ys, name) {
      var i :| 0 <= i < |ys| && ys[i].name == name;
      assert SameOutside(xs[i], ys[i]) && xs[i] in xs;
    }
  }

  lemma AdmittedOutside(s: Source, keys: set<string>)
    ensures SameOutside(s, Admitted(s, keys)) && Admitted(s, keys).Key() == s.Key()
  {
    FilterConserves(s.spec);
    assert NonConsent(NonConsent(SpecCatalog(s.spec))) == NonConsent(SpecCatalog(s.spec));
  }

  lemma {:induction false} CandidatesOutside(attached: seq<Source>, keys: set<string>)
    ensures AllSameOutside(WithoutKeys(attached, keys), WithoutKeys(AdmittedAll(attached, keys), keys))
    decreases |attached|
  {
    if attached != [] {
      AdmittedOutside(attached[0], keys);
      CandidatesOutside(attached[1..], keys);
      assert AdmittedAll(attached, keys)[1..] == AdmittedAll(attached[1..], keys);
    }
  }

  lemma AllSameAppends(a: seq<Source>, xs: seq<Source>, ys: seq<Source>, b: seq<Source>)
    requires AllSameOutside(xs, ys)
    ensures AllSameOutside(a + xs + b, a + ys + b)
  {
  }

  /** The filter takes consent only, end to end: whatever names collide, every value of the resolved catalog whose key
      does not start with "consent." is the one that the unfiltered sources, in that order, would give. */
  lemma OthersUnfiltered(default: Option<Source>, attached: seq<Source>, declared: seq<Source>, lk: (string, string))
    requires !("consent." <= lk.1)
    ensures var c := SourcesCatalog(LastPerName(Candidates(default, AdmittedAll(attached, Keys(declared)), declared)));
            var u := SourcesCatalog(LastPerName(Candidates(default, attached, declared)));
            (lk in c <==> lk in u) && (lk in c ==> c[lk] == u[lk])
  {
    var keys := Keys(declared);
    var xs, ys := Candidates(default, attached, declared), Candidates(default, AdmittedAll(attached, keys), declared);
    CandidatesOutside(attached, keys);
    AllSameAppends(
      DefaultSeq(default), WithoutKeys(attached, keys), WithoutKeys(AdmittedAll(attached, keys), keys), declared);
    SameCatalogOutside(xs, ys);
    var c, u := SourcesCatalog(LastPerName(ys)), SourcesCatalog(LastPerName(xs));
    assert NonConsent(c) == NonConsent(u);
    assert lk in NonConsent(c) <==> lk in c;
    assert lk in NonConsent(u) <==> lk in u;
    assert lk in c ==> NonConsent(c)[lk] == c[lk];
    assert lk in u ==> NonConsent(u)[lk] == u[lk];
  }

  /** The order that the admitted sources are sorted into is one of the attached ones. */
  lemma {:induction false} AdmittedOrder(attached: seq<Source>, keys: set<string>, self: seq<Source>)
    returns (order: seq<Source>)
    requires multiset(self) == multiset(AdmittedAll(attached, keys))
    ensures multiset(order) == multiset(attached) && self == AdmittedAll(order, keys)
    decreases |self|
  {
    assert |self| == |multiset(self)| == |multiset(AdmittedAll(attached, keys))| == |attached|;
    if self == [] {
      order := [];
    } else {
      assert self[0] in multiset(AdmittedAll(attached, keys));
      var i :| 0 <= i < |attached| && AdmittedAll(attached, keys)[i] == self[0];
      var rest := attached[..i] + attached[i + 1..];
      TakesOut(attached, keys, i);
      TailCounts(self, AdmittedAll(rest, keys));
      var tail := AdmittedOrder(rest, keys, self[1..]);
      order := [attached[i]] + tail;
      assert AdmittedAll(order, keys)[1..] == AdmittedAll(tail, keys);
    }
  }

  lemma TailCounts(xs: seq<Source>, rest: seq<Source>)
    requires xs != [] && multiset(xs) == multiset{xs[0]} + multiset(rest)
    ensures multiset(xs[1..]) == multiset(rest)
  {
    assert xs == [xs[0]] + xs[1..];
    assert multiset(xs[1..]) == multiset(xs) - multiset{xs[0]} == multiset(rest);
  }

  lemma TakesOut(attached: seq<Source>, keys: set<string>, i: nat)
    requires i < |attached|
    ensures var rest := attached[..i] + attached[i + 1..];
            && multiset(attached) == multiset{attached[i]} + multiset(rest)
            && multiset(AdmittedAll(attached, keys))
               == multiset{Admitted(attached[i], keys)} + multiset(AdmittedAll(rest, keys))
  {
    var rest := attached[..i] + attached[i + 1..];
    assert attached == attached[..i] + [attached[i]] + attached[i + 1..];
    var all := AdmittedAll(attached, keys);
    assert all == all[..i] + [all[i]] + all[i + 1..];
    assert AdmittedAll(rest, keys) == all[..i] + all[i + 1..];
  }

  /** So it is for the order that the filtered sources are really sorted into. */
  lemma ResolvedOutsideConsent(
    default: Option<Source>, attached: seq<Source>, self: seq<Source>, declared: seq<Source>)
    returns (order: seq<Source>)
    requires ByName(self, AdmittedAll(attached, Keys(declared)))
    ensures ByName(order, attached)
    ensures var c := SourcesCatalog(LastPerName(Candidates(default, self, declared)));
            var u := SourcesCatalog(LastPerName(Candidates(default, order, declared)));
            forall lk: (string, string) ::
              !("consent." <= lk.1) ==> (lk in c <==> lk in u) && (lk in c ==> c[lk] == u[lk])
  {
    order := AdmittedOrder(attached, Keys(declared), self);
    forall i | 0 <= i < |order|
      ensures order[i].name == self[i].name
    {
      AdmittedOutside(order[i], Keys(declared));
    }
    forall lk: (string, string) | !("consent." <= lk.1)
      ensures var c := SourcesCatalog(LastPerName(Candidates(default, self, declared)));
              var u := SourcesCatalog(LastPerName(Candidates(default, order, declared)));
              (lk in c <==> lk in u) && (lk in c ==> c[lk] == u[lk])
    {
      OthersUnfiltered(default, order, declared, lk);
    }
  }

  lemma AdmittedIsFree(attached: seq<Source>, keys: set<string>, s: Source, lk: (string, string))
    requires s in AdmittedAll(attached, keys) && s.Key() !in keys && ConsentKey(lk.1)
    ensures lk !in SpecCatalog(s.spec)
  {
    var i :| 0 <= i < |attached| && s == Admitted(attached[i], keys);
    FilterConserves(attached[i].spec);
  }
}
