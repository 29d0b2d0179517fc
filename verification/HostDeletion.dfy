/** The deletion ladder of a terminating host: one level of internal resources at a time, then the Helm
    releases, then the finalizer. */
module HostDeletion {
  import opened Wrappers
  import opened HelmOperations
  import opened HelmProtocol
  import opened HelmPass
  import HelmTeardown

  /** The internal resources that name the host; true marks one that is already terminating. */
  datatype Children = Children(internalHost: Option<bool>, pages: map<string, bool>, translations: map<string, bool>) {
    predicate Empty() {
      internalHost == None && pages == map[] && translations == map[]
    }

    function Count(): nat {
      (if internalHost.Some? then 1 else 0) + |pages| + |translations|
    }
  }

  function Terminating(m: map<string, bool>): map<string, bool> {
    map k | k in m :: true
  }

  /** The objects a pass without API errors has asked to delete: the first level that is not gone. */
  function Ladder(c: Children): Children {
    if c.internalHost.Some? then c.(internalHost := Some(true))
    else if c.pages != map[] then c.(pages := Terminating(c.pages))
    else c.(translations := Terminating(c.translations))
  }

  /** How the API server and the client factory answer during one pass. */
  datatype Answers = Answers(
    readHost: bool, readPages: bool, readTranslations: bool, deletes: string -> bool, builds: bool, updates: bool)

  ghost predicate Healthy(a: Answers) {
    a.readHost && a.readPages && a.readTranslations && (forall k :: a.deletes(k)) && a.builds && a.updates
  }

  const INTERNAL_HOST := "" // the name under which the internal host is asked to be deleted

  /** A level is asked to be deleted without an error. */
  predicate Asks(a: Answers, items: map<string, bool>) {
    forall k :: k in items && !items[k] ==> a.deletes(k)
  }

  /** A pass finds something left, and meets no error on its way there. */
  predicate Waits(a: Answers, c: Children) {
    a.readHost &&
    if c.internalHost.Some? then c.internalHost.value || a.deletes(INTERNAL_HOST)
    else
      a.readPages &&
      if c.pages != map[] then Asks(a, c.pages)
      else a.readTranslations && c.translations != map[] && Asks(a, c.translations)
  }

  datatype Result = Waiting | Blocked | Finished

  /** The deletion loop of one level. It stops at the first delete that fails. */
  method DeleteAll(items: map<string, bool>, a: Answers) returns (ok: bool, marked: map<string, bool>)
    ensures ok <==> Asks(a, items)
    ensures ok ==> marked == Terminating(items)
    ensures marked.Keys == items.Keys
    ensures forall k :: k in items ==> (items[k] ==> marked[k]) && (marked[k] && !items[k] ==> a.deletes(k))
  {
    marked, ok := items, true;
    var rest := items.Keys;
    while ok && rest != {}
      invariant rest <= items.Keys && marked.Keys == items.Keys
      invariant forall k :: k in rest ==> marked[k] == items[k]
      invariant forall k :: k in items ==> (items[k] ==> marked[k]) && (marked[k] && !items[k] ==> a.deletes(k))
      invariant if ok then forall k :: k in items && k !in rest ==> marked[k] else !Asks(a, items)
      decreases |rest|
    {
      var k :| k in rest;
      rest := rest - {k};
      if !marked[k] {
        ok := a.deletes(k);
        if ok {
          marked := marked[k := true];
        }
      }
    }
  }

  /** The same resources, some of them newly terminating. */
  ghost predicate OnlyMarked(c: Children, c': Children) {
    && (c'.internalHost.Some? <==> c.internalHost.Some?)
    && c'.pages.Keys == c.pages.Keys && c'.translations.Keys == c.translations.Keys
  }

  /** No level is touched while one above it is left: the internal host, then the utility pages, then the translations;
      and what is terminating stays so. */
  ghost predicate InLadderOrder(c: Children, c': Children) {
    && (c.internalHost == Some(true) ==> c'.internalHost == Some(true))
    && (forall k :: k in c.pages && c.pages[k] ==> k in c'.pages && c'.pages[k])
    && (forall k :: k in c.translations && c.translations[k] ==> k in c'.translations && c'.translations[k])
    && (c.internalHost.Some? ==> c'.pages == c.pages && c'.translations == c.translations)
    && (c.pages != map[] ==> c'.translations == c.translations)
  }

  /** Every object of the first level that is left is terminating. */
  predicate LevelTerminates(c: Children, c': Children) {
    if c.internalHost.Some? then c'.internalHost == Some(true)
    else if c.pages != map[] then forall k :: k in c'.pages ==> c'.pages[k]
    else c.translations != map[] && forall k :: k in c'.translations ==> c'.translations[k]
  }

  /** What one pass found and left; `clean` says that it met no failure of any kind. */
  datatype Pass = Pass(found: Children, left: Children, finalizer: bool, clean: bool)

  /** What such a pass may do: it only marks resources, and without a failure it makes progress. */
  ghost predicate Possible(p: Pass) {
    && OnlyMarked(p.found, p.left)
    && (p.clean ==> if p.found.Empty() then !p.finalizer else p.left == Ladder(p.found) && p.finalizer)
  }

  class Host {
    const key: Key
    const companions: seq<string>
    var children: Children
    var finalizer: bool

    constructor (key: Key, companions: seq<string>, children: Children)
      ensures this.key == key && this.companions == companions && this.children == children && finalizer
    {
      this.key, this.companions, this.children, finalizer := key, companions, children, true;
    }

    /** One reconcile of the terminating host. It waits exactly when something is left and it met no error. Past
        that, the host and (if they could be listed) all its companions are uninstalled, whatever fails; and the
        finalizer goes exactly when nothing was left and no API call, build or client call failed. */
    method DeletionPass(client: HelmClient, table: OperationTable, a: Answers) returns (r: Result)
      requires finalizer && !table.held
      modifies this, client`releases, client`history, client`calls, table
      ensures !table.held
      ensures finalizer <==> !r.Finished?
      ensures r.Waiting? <==> Waits(a, old(children))
      ensures r.Waiting? ==> children == Ladder(old(children))
      ensures OnlyMarked(old(children), children) && InLadderOrder(old(children), children)
      ensures r.Waiting? ==> LevelTerminates(old(children), children)
      ensures !old(children).Empty() ==> client.releases == old(client.releases) && table.active == old(table.active)
      ensures old(client.calls) <= client.calls
      ensures var calls := Since(old(client.calls), client.calls);
              && (r.Finished? <==>
                    old(children).Empty() && a.readHost && a.readPages && a.readTranslations && a.builds && a.updates
                    && AllOk(calls))
              && (old(children).Empty() && a.readHost && a.readPages && a.readTranslations && a.builds ==>
                    |calls| >= 2 && Attempted(calls, key) && key !in table.active
                    && (calls[1].ok ==>
                          forall k :: OwnedKey(old(client.releases), key, k) || Declared(key, companions, k)
                                      ==> Attempted(calls, k)))
      ensures Possible(Pass(
                old(children), children, finalizer, Healthy(a) && AllOk(Since(old(client.calls), client.calls))))
      ensures r.Finished? ==> children == old(children)
      ensures r.Finished? ==> client.releases == Without(Remove(old(client.releases), key), key, companions)
      ensures r.Finished? ==> HelmTeardown.TornDown(client.releases, key)
    {
      r := Blocked;
      assert Since(client.calls, client.calls) == [];
      if !a.readHost {
        return;
      }
      if children.internalHost.Some? {
        if !children.internalHost.value {
          if !a.deletes(INTERNAL_HOST) {
            return;
          }
          children := children.(internalHost := Some(true));
        }
        r := Waiting;
        return;
      }
      if !a.readPages {
        return;
      }
      if children.pages != map[] {
        var ok, marked := DeleteAll(children.pages, a);
        children := children.(pages := marked);
        r := if ok then Waiting else Blocked;
        return;
      }
      if !a.readTranslations {
        return;
      }
      if children.translations != map[] {
        var ok, marked := DeleteAll(children.translations, a);
        children := children.(translations := marked);
        r := if ok then Waiting else Blocked;
        return;
      }
      if !a.builds {
        return;
      }
      table.CancelHelmOperation(key);
      var gone := UninstallEverything(client);
      if !gone {
        return;
      }
      if !a.updates {
        return;
      }
      finalizer := false;
      r := Finished;
      RemovedIsTornDown(old(client.releases), key, companions);
    }

    /** The host release, then its companions; both are attempted before any failure is acted on. */
    method UninstallEverything(client: HelmClient) returns (ok: bool)
      modifies client`releases, client`history, client`calls
      ensures old(client.calls) <= client.calls
      ensures var calls := Since(old(client.calls), client.calls);
              && (ok <==> AllOk(calls)) && |calls| >= 2 && Attempted(calls, key)
              && (calls[1].ok ==>
                    forall k :: OwnedKey(old(client.releases), key, k) || Declared(key, companions, k)
                                ==> Attempted(calls, k))
      ensures ok ==> client.releases == Without(Remove(old(client.releases), key), key, companions)
    {
      ghost var m, c0 := client.releases, client.calls;
      var hostGone := client.Uninstall(key);
      ghost var first, c1 := Call(Uninstalls(key), hostGone, client.Holding()), client.calls;
      assert forall k :: k != key && OwnedKey(m, key, k) ==> OwnedKey(client.releases, key, k);
      var companionsGone := UninstallCompanions(client, key, companions);
      ok := hostGone && companionsGone;
      assert Since(c0, client.calls) == [first] + Since(c1, client.calls);
      FirstThenRest(first, Since(c1, client.calls));
    }
  }

  lemma FirstThenRest(first: Call, rest: seq<Call>)
    requires first.action.Uninstalls?
    ensures AllOk([first] + rest) <==> first.ok && AllOk(rest)
    ensures Attempted([first] + rest, first.action.key)
    ensures forall k :: Attempted(rest, k) ==> Attempted([first] + rest, k)
  {
    assert forall call :: call in [first] + rest <==> call == first || call in rest;
  }

  lemma RemovedIsTornDown(m: Releases, host: Key, names: seq<string>)
    ensures HelmTeardown.TornDown(Without(Remove(m, host), host, names), host)
  {
    var st := Without(Remove(m, host), host, names);
    forall k
      ensures !HelmTeardown.Remnant(st, host, k)
    {
      assert k in st ==> !OwnedKey(st, host, k);
    }
  }

  // ---------------------------------------------------------------- termination

  /** Deletes take effect: nothing is created, and some terminating object, if there is one, is gone. */
  ghost predicate Settles(c: Children, c': Children) {
    && (c'.internalHost == c.internalHost || c'.internalHost == None)
    && c'.pages.Items <= c.pages.Items && c'.translations.Items <= c.translations.Items
    && (c' == c ==> c.internalHost != Some(true) && true !in c.pages.Values && true !in c.translations.Values)
  }

  lemma SubmapCount(m: map<string, bool>, n: map<string, bool>)
    requires n.Items <= m.Items
    ensures n.Keys <= m.Keys && |n| <= |m|
    ensures n != m ==> |n| < |m|
  {
    forall k | k in n
      ensures k in m && m[k] == n[k]
    {
      assert (k, n[k]) in n.Items;
    }
    assert m.Keys == n.Keys + (m.Keys - n.Keys);
    assert m.Keys == n.Keys ==> m == n;
  }

  lemma TerminatingIsTrue(m: map<string, bool>)
    ensures m != map[] ==> true in Terminating(m).Values
    ensures Terminating(m).Keys == m.Keys && |Terminating(m)| == |m|
  {
    if m != map[] {
      var k :| k in m;
      assert Terminating(m)[k] in Terminating(m).Values;
    }
    assert Terminating(m).Keys == m.Keys;
  }

  lemma PassDecreases(c: Children, c': Children)
    requires !c.Empty() && Settles(Ladder(c), c')
    ensures c'.Count() < c.Count()
  {
    var l := Ladder(c);
    SubmapCount(l.pages, c'.pages);
    SubmapCount(l.translations, c'.translations);
    TerminatingIsTrue(c.pages);
    TerminatingIsTrue(c.translations);
  }

  /** Whatever a pass met, no resource comes back before the next one. */
  lemma PassNeverIncreases(c: Children, marked: Children, c': Children)
    requires OnlyMarked(c, marked) && Settles(marked, c')
    ensures c'.Count() <= c.Count()
  {
    SubmapCount(marked.pages, c'.pages);
    SubmapCount(marked.translations, c'.translations);
    assert |marked.pages| == |marked.pages.Keys| && |c.pages| == |c.pages.Keys|;
    assert |marked.translations| == |marked.translations.Keys| && |c.translations| == |c.translations.Keys|;
  }

  /** A host with its finalizer, and passes over it between which deletes take effect; only the last one may
      have removed the finalizer. */
  ghost predicate Run(passes: seq<Pass>) {
    && (forall i :: 0 <= i < |passes| ==> Possible(passes[i]))
    && (forall i :: 0 <= i < |passes| - 1 ==> passes[i].finalizer && Settles(passes[i].left, passes[i + 1].found))
  }

  function CleanPasses(passes: seq<Pass>): nat {
    if passes == [] then 0 else (if passes[0].clean then 1 else 0) + CleanPasses(passes[1..])
  }

  /** Deletion terminates. Whatever passes fail in between, a host with n internal resources loses its
      finalizer in its (n + 1)-th pass without a failure at the latest: the count of its resources, then its
      finalizer, falls in every such pass and never rises. */
  lemma {:induction false} DeletionTerminates(passes: seq<Pass>)
    requires Run(passes) && passes != []
    ensures CleanPasses(passes) <= passes[0].found.Count() + 1
    ensures CleanPasses(passes) == passes[0].found.Count() + 1 ==> !passes[|passes| - 1].finalizer
    decreases |passes|
  {
    var p, rest := passes[0], passes[1..];
    if rest == [] {
      assert p.found.Count() == 0 ==> p.found.Empty();
    } else {
      var next := rest[0];
      assert Settles(p.left, next.found) && p.finalizer;
      assert rest[|rest| - 1] == passes[|passes| - 1];
      forall i | 0 <= i < |rest| - 1
        ensures rest[i].finalizer && Settles(rest[i].left, rest[i + 1].found)
      {
        assert rest[i] == passes[i + 1] && rest[i + 1] == passes[i + 2];
      }
      DeletionTerminates(rest);
      PassNeverIncreases(p.found, p.left, next.found);
      if p.clean {
        PassDecreases(p.found, next.found);
      }
    }
  }
}
