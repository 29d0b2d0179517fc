/** The Helm clients of the hosts, kept under name-namespace. */
module HelmClients {
  import opened Wrappers
  import opened Ordering

  /** A client acts in the namespace, and with the secrets, that it was built for. */
  datatype Client = Client(ns: string, secrets: seq<string>)

  datatype Cached = Cached(client: Client, hash: string)

  type Clients = map<string, Cached>

  function ClientKey(name: string, ns: string): string {
    name + "-" + ns
  }

  /** When two hosts share a key: one's namespace ends in the other's, and the names make up for it. */
  lemma KeysCollideIff(nameA: string, nsA: string, nameB: string, nsB: string)
    ensures ClientKey(nameA, nsA) == ClientKey(nameB, nsB)
       <==> (nameA == nameB && nsA == nsB) || Overlap(nameA, nsA, nameB, nsB) || Overlap(nameB, nsB, nameA, nsA)
  {
    JoinsCollideIff(nameA, nsA, nameB, nsB);
  }

  // ---------------------------------------------------------------- the cache

  type Hash = seq<string> -> string

  predicate Hit(clients: Clients, hash: Hash, key: string, secrets: seq<string>) {
    key in clients && clients[key].hash == hash(secrets)
  }

  /** What a call returns: the cached client when it was built from secrets of the same hash. */
  function Returned(clients: Clients, hash: Hash, name: string, ns: string, secrets: seq<string>): Client {
    var k := ClientKey(name, ns);
    if Hit(clients, hash, k, secrets) then clients[k].client else Client(ns, secrets)
  }

  function AfterGet(clients: Clients, hash: Hash, name: string, ns: string, secrets: seq<string>): Clients {
    clients[ClientKey(name, ns) := Cached(Returned(clients, hash, name, ns, secrets), hash(secrets))]
  }

  class HelmClientCache {
    const hash: Hash
    var clients: Clients

    constructor (hash: Hash)
      ensures this.hash == hash && clients == map[]
    {
      this.hash, clients := hash, map[];
    }

    /** Under the mutex: rebuilds the client when the secrets changed; a failed build keeps the old entry. */
    method GetOrCreate(name: string, ns: string, secrets: seq<string>, factoryFails: bool)
      returns (client: Option<Client>)
      modifies this`clients
      ensures client.None? <==> factoryFails && !Hit(old(clients), hash, ClientKey(name, ns), secrets)
      ensures client.None? ==> clients == old(clients)
      ensures client.Some? ==> client.value == Returned(old(clients), hash, name, ns, secrets)
                               && clients == AfterGet(old(clients), hash, name, ns, secrets)
    {
      var key := ClientKey(name, ns);
      if key !in clients || clients[key].hash != hash(secrets) {
        if factoryFails {
          return None;
        }
        clients := clients[key := Cached(Client(ns, secrets), hash(secrets))];
      }
      client := Some(clients[key].client);
    }

    /** The next call under this key builds a client, whatever its secrets; every other key answers as before. */
    method Delete(name: string, ns: string)
      modifies this`clients
      ensures forall secrets :: !Hit(clients, hash, ClientKey(name, ns), secrets)
      ensures forall k :: k != ClientKey(name, ns) ==>
                (k in clients <==> k in old(clients)) && (k in clients ==> clients[k] == old(clients)[k])
    {
      clients := clients - {ClientKey(name, ns)};
    }
  }

  // ---------------------------------------------------------------- runs

  datatype Call = Get(name: string, ns: string, secrets: seq<string>) | Forget(name: string, ns: string)

  function After(hash: Hash, calls: seq<Call>): Clients
    decreases |calls|
  {
    if calls == [] then map[]
    else
      var before, c := After(hash, calls[..|calls| - 1]), calls[|calls| - 1];
      match c
      case Get(name, ns, secrets) => AfterGet(before, hash, name, ns, secrets)
      case Forget(name, ns) => before - {ClientKey(name, ns)}
  }

  ghost predicate Injective(hash: Hash) {
    forall a, b :: hash(a) == hash(b) ==> a == b
  }

  predicate Concerns(c: Call, key: string) {
    ClientKey(c.name, c.ns) == key
  }

  /** The call asks for the client of `key` with these secrets. */
  predicate Asks(c: Call, key: string, secrets: seq<string>) {
    Concerns(c, key) && c.Get? && c.secrets == secrets
  }

  /** Call `j` is the last one before call `i` that concerns the key. */
  predicate Precedes(calls: seq<Call>, key: string, j: int, i: int)
    requires i <= |calls|
  {
    0 <= j < i && Concerns(calls[j], key) && forall m :: j < m < i ==> !Concerns(calls[m], key)
  }

  /** Since call `i`, every call for `key` asked with these secrets, and the call before it for `key`, if any, did
      not: it forgot the client or asked with others. */
  ghost predicate StreakFrom(calls: seq<Call>, key: string, secrets: seq<string>, i: int) {
    && 0 <= i < |calls| && Asks(calls[i], key, secrets)
    && (forall j :: i < j < |calls| && Concerns(calls[j], key) ==> Asks(calls[j], key, secrets))
    && (forall j :: Precedes(calls, key, j, i) ==> !Asks(calls[j], key, secrets))
  }

  ghost predicate HasStreak(calls: seq<Call>, key: string, secrets: seq<string>) {
    exists i :: StreakFrom(calls, key, secrets, i)
  }

  /** The cached client is the one that the first call of the latest streak asked for. */
  lemma {:induction false} CachedIsFirstOfStreak(hash: Hash, calls: seq<Call>, key: string, secrets: seq<string>)
    requires Injective(hash)
    ensures Hit(After(hash, calls), hash, key, secrets) <==> HasStreak(calls, key, secrets)
    ensures forall i :: StreakFrom(calls, key, secrets, i) ==>
              && key in After(hash, calls)
              && After(hash, calls)[key] == Cached(Client(calls[i].ns, secrets), hash(secrets))
    decreases |calls|
  {
    if calls != [] {
      var init, last := calls[..|calls| - 1], |calls| - 1;
      CachedIsFirstOfStreak(hash, init, key, secrets);
      forall i
        ensures !Concerns(calls[last], key) || Asks(calls[last], key, secrets) ==>
                  (i != last ==> (StreakFrom(calls, key, secrets, i) <==> StreakFrom(init, key, secrets, i)))
      {
        if i != last && (!Concerns(calls[last], key) || Asks(calls[last], key, secrets)) {
          StreakWithoutLast(calls, key, secrets, i);
        }
      }
      if Asks(calls[last], key, secrets) {
        LastStartsIff(calls, key, secrets);
      }
    }
  }

  /** A call that asks the same, or does not concern the key, leaves the earlier streak as it was. */
  lemma StreakWithoutLast(calls: seq<Call>, key: string, secrets: seq<string>, i: int)
    requires calls != [] && i != |calls| - 1
    requires !Concerns(calls[|calls| - 1], key) || Asks(calls[|calls| - 1], key, secrets)
    ensures StreakFrom(calls, key, secrets, i) <==> StreakFrom(calls[..|calls| - 1], key, secrets, i)
  {
    var init := calls[..|calls| - 1];
    if 0 <= i < |init| {
      forall j
        ensures Precedes(calls, key, j, i) <==> Precedes(init, key, j, i)
      {
      }
    }
  }

  /** A call that asks for the key starts a streak when there was none of its secrets. */
  lemma LastStartsIff(calls: seq<Call>, key: string, secrets: seq<string>)
    requires calls != [] && Asks(calls[|calls| - 1], key, secrets)
    ensures StreakFrom(calls, key, secrets, |calls| - 1) <==> !HasStreak(calls[..|calls| - 1], key, secrets)
  {
    var init, last := calls[..|calls| - 1], |calls| - 1;
    if HasStreak(init, key, secrets) {
      StreakIsExtended(calls, key, secrets);
    } else {
      forall j | Precedes(calls, key, j, last)
        ensures !Asks(calls[j], key, secrets)
      {
        assert Precedes(init, key, j, last);
        NoStreakNoAsk(init, key, secrets, j);
      }
    }
  }

  lemma StreakIsExtended(calls: seq<Call>, key: string, secrets: seq<string>)
    requires calls != [] && HasStreak(calls[..|calls| - 1], key, secrets)
    ensures !StreakFrom(calls, key, secrets, |calls| - 1)
  {
    var init := calls[..|calls| - 1];
    var i :| StreakFrom(init, key, secrets, i);
    var j := LastConcerned(init, key, i);
    assert Asks(init[j], key, secrets);
    assert Precedes(calls, key, j, |init|);
  }

  lemma NoStreakNoAsk(calls: seq<Call>, key: string, secrets: seq<string>, j: int)
    requires Precedes(calls, key, j, |calls|) && !HasStreak(calls, key, secrets)
    ensures !Asks(calls[j], key, secrets)
  {
    if Asks(calls[j], key, secrets) {
      var i := StreakStart(calls, key, secrets, j);
    }
  }

  /** The last call from `i` on that concerns the key. */
  lemma {:induction false} LastConcerned(calls: seq<Call>, key: string, i: nat) returns (j: nat)
    requires i < |calls| && Concerns(calls[i], key)
    ensures i <= j && Precedes(calls, key, j, |calls|)
    decreases |calls| - i
  {
    if m :| i < m < |calls| && Concerns(calls[m], key) {
      j := LastConcerned(calls, key, m);
    } else {
      j := i;
    }
  }

  /** The streak that the last call for the key belongs to has a first call. */
  lemma {:induction false} StreakStart(calls: seq<Call>, key: string, secrets: seq<string>, j: nat) returns (i: int)
    requires j < |calls| && Asks(calls[j], key, secrets)
    requires forall m :: j < m < |calls| && Concerns(calls[m], key) ==> Asks(calls[m], key, secrets)
    ensures StreakFrom(calls, key, secrets, i)
    decreases j
  {
    if p :| Precedes(calls, key, p, j) && Asks(calls[p], key, secrets) {
      i := StreakStart(calls, key, secrets, p);
    } else {
      i := j;
    }
  }

  /** A call gets a client of its own namespace and secrets, whatever was called before, exactly when the calls
      for its key since the last Forget or change of secrets, if they used its secrets, began in its namespace. */
  lemma OwnClientIff(hash: Hash, calls: seq<Call>, name: string, ns: string, secrets: seq<string>)
    requires Injective(hash)
    ensures Returned(After(hash, calls), hash, name, ns, secrets) == Client(ns, secrets)
       <==> forall i :: StreakFrom(calls, ClientKey(name, ns), secrets, i) ==> calls[i].ns == ns
  {
    CachedIsFirstOfStreak(hash, calls, ClientKey(name, ns), secrets);
  }

  /** So it always does where no earlier call's name and namespace overlap with its own. */
  lemma OwnClientWithoutOverlap(hash: Hash, calls: seq<Call>, name: string, ns: string, secrets: seq<string>)
    requires Injective(hash)
    requires forall i :: 0 <= i < |calls| && calls[i].Get? ==>
               !Overlap(name, ns, calls[i].name, calls[i].ns) && !Overlap(calls[i].name, calls[i].ns, name, ns)
    ensures Returned(After(hash, calls), hash, name, ns, secrets) == Client(ns, secrets)
  {
    forall i | StreakFrom(calls, ClientKey(name, ns), secrets, i)
      ensures calls[i].ns == ns
    {
      KeysCollideIff(name, ns, calls[i].name, calls[i].ns);
    }
    OwnClientIff(hash, calls, name, ns, secrets);
  }

  /** Any two overlapping hosts collide, whatever happened to others before: after one asked, the other, asking
      with the same secrets, is handed the first one's client. */
  lemma ForeignClient(
    hash: Hash, calls: seq<Call>, nameA: string, nsA: string, nameB: string, nsB: string, secrets: seq<string>)
    requires Overlap(nameA, nsA, nameB, nsB) || Overlap(nameB, nsB, nameA, nsA)
    requires ClientKey(nameA, nsA) !in After(hash, calls)
    ensures nsA != nsB
    ensures Returned(After(hash, calls + [Get(nameA, nsA, secrets)]), hash, nameB, nsB, secrets) == Client(nsA, secrets)
  {
    KeysCollideIff(nameA, nsA, nameB, nsB);
    assert (calls + [Get(nameA, nsA, secrets)])[..|calls|] == calls;
    OverlapDiffers(nameA, nsA, nameB, nsB);
  }

  lemma OverlapDiffers(nameA: string, nsA: string, nameB: string, nsB: string)
    requires Overlap(nameA, nsA, nameB, nsB) || Overlap(nameB, nsB, nameA, nsA)
    ensures nsA != nsB
  {
    if Overlap(nameA, nsA, nameB, nsB) {
      var mid: string :| nsB == mid + "-" + nsA && nameA == nameB + "-" + mid;
      assert |nsB| > |nsA|;
    } else {
      var mid: string :| nsA == mid + "-" + nsB && nameB == nameA + "-" + mid;
      assert |nsA| > |nsB|;
    }
  }
}
