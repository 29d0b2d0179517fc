/** The status guard of the app reconciler: which statuses count as equal, and how often a settled app is
    written. */
module AppStatus {
  import opened Wrappers
  import opened Ordering

  /** metav1.Condition. */
  datatype Condition = Condition(
    kind: string, status: string, reason: string, message: string, observedGeneration: int, time: int)

  /** KDexObjectStatus. */
  datatype Status = Status(attributes: map<string, string>, conditions: seq<Condition>, observedGeneration: int)

  /** One condition per type, as the schema's list map demands. */
  predicate UniqueTypes(cs: seq<Condition>) {
    forall i, j :: 0 <= i < j < |cs| ==> cs[i].kind != cs[j].kind
  }

  function Bare(c: Condition): Condition {
    c.(time := 0)
  }

  function Timeless(cs: seq<Condition>): (r: seq<Condition>)
    ensures |r| == |cs| && forall i :: 0 <= i < |cs| ==> r[i] == Bare(cs[i])
    ensures UniqueTypes(cs) ==> UniqueTypes(r)
  {
    if cs == [] then [] else [Bare(cs[0])] + Timeless(cs[1..])
  }

  predicate KindLe(a: Condition, b: Condition) {
    StringLe(a.kind, b.kind)
  }

  // ---------------------------------------------------------------- comparison

  /** Zeroes the times and sorts by type, in place. The sort is not stable. */
  method NormalizeForCompare(conditions: array<Condition>)
    modifies conditions
    ensures multiset(conditions[..]) == multiset(Timeless(old(conditions[..])))
    ensures SortedBy(KindLe, conditions[..])
  {
    for i := 0 to conditions.Length
      invariant forall j :: 0 <= j < i ==> conditions[j] == Bare(old(conditions[j]))
      invariant forall j :: i <= j < conditions.Length ==> conditions[j] == old(conditions[j])
    {
      conditions[i] := conditions[i].(time := 0);
    }
    assert conditions[..] == Timeless(old(conditions[..]));
    SortInPlace(conditions);
  }

  method SortInPlace(conditions: array<Condition>)
    modifies conditions
    ensures multiset(conditions[..]) == multiset(old(conditions[..]))
    ensures SortedBy(KindLe, conditions[..])
  {
    StringLeIsPreorder();
    var sorted := Sort(conditions[..], KindLe);
    assert |sorted| == |multiset(sorted)| == |multiset(conditions[..])| == conditions.Length;
    forall i | 0 <= i < conditions.Length {
      conditions[i] := sorted[i];
    }
    assert conditions[..] == sorted;
  }

  /** The condition of a type, its time aside. */
  function Lookup(cs: seq<Condition>, kind: string): Option<Condition> {
    if cs == [] then None
    else if cs[0].kind == kind then Some(Bare(cs[0]))
    else Lookup(cs[1..], kind)
  }

  /** Two statuses agree as maps from type to everything except the transition time. */
  ghost predicate SameStatus(a: Status, b: Status) {
    && a.attributes == b.attributes
    && a.observedGeneration == b.observedGeneration
    && SameConditions(a.conditions, b.conditions)
  }

  ghost predicate SameConditions(a: seq<Condition>, b: seq<Condition>) {
    forall kind :: Lookup(a, kind) == Lookup(b, kind)
  }

  /** `n` is a sorted timeless arrangement of `cs`. */
  ghost predicate NormalForm(n: seq<Condition>, cs: seq<Condition>) {
    multiset(n) == multiset(Timeless(cs)) && SortedBy(KindLe, n)
  }

  /** The normal form of a deep copy. */
  method Normalized(cs: seq<Condition>) returns (r: seq<Condition>)
    ensures NormalForm(r, cs)
  {
    var copy := new Condition[|cs|](i requires 0 <= i < |cs| => cs[i]);
    assert copy[..] == cs;
    NormalizeForCompare(copy);
    r := copy[..];
  }

  method ObjectStatusEqual(a: Status, b: Status) returns (equal: bool)
    ensures UniqueTypes(a.conditions) && UniqueTypes(b.conditions) ==> (equal <==> SameStatus(a, b))
    ensures equal ==> multiset(Timeless(a.conditions)) == multiset(Timeless(b.conditions))
                      && a.attributes == b.attributes && a.observedGeneration == b.observedGeneration
  {
    var ac := Normalized(a.conditions);
    var bc := Normalized(b.conditions);
    equal := ac == bc && a.attributes == b.attributes && a.observedGeneration == b.observedGeneration;
    if UniqueTypes(a.conditions) && UniqueTypes(b.conditions) {
      NormalFormsAgree(a.conditions, b.conditions, ac, bc);
    }
  }

  /** Normalisation is canonical: any two normal forms are equal exactly when the lists agree as maps. */
  lemma NormalFormsAgree(a: seq<Condition>, b: seq<Condition>, na: seq<Condition>, nb: seq<Condition>)
    requires UniqueTypes(a) && UniqueTypes(b) && NormalForm(na, a) && NormalForm(nb, b)
    ensures na == nb <==> SameConditions(a, b)
  {
    if na == nb {
      SameElementsSameMap(a, b);
    }
    if SameConditions(a, b) {
      SameMapSameElements(a, b);
      NormalFormIsUnique(a, na, nb);
    }
  }

  lemma NormalFormIsUnique(a: seq<Condition>, na: seq<Condition>, nb: seq<Condition>)
    requires UniqueTypes(a) && NormalForm(na, a) && NormalForm(nb, a)
    ensures na == nb
  {
    forall x, y | x in na && y in na && KindLe(x, y) && KindLe(y, x)
      ensures x == y
    {
      StringLeTotal(x.kind, y.kind);
      assert x in multiset(na) && y in multiset(na);
      assert x in Timeless(a) && y in Timeless(a);
    }
    SortedIsUnique(KindLe, na, nb);
  }

  lemma {:induction false} LookupMeansMember(cs: seq<Condition>, c: Condition)
    requires UniqueTypes(cs)
    ensures Lookup(cs, c.kind) == Some(c) <==> c in Timeless(cs)
    decreases |cs|
  {
    if cs != [] {
      LookupMeansMember(cs[1..], c);
      assert Timeless(cs) == [Bare(cs[0])] + Timeless(cs[1..]);
    }
  }

  lemma {:induction false} LookupKind(cs: seq<Condition>, kind: string)
    ensures Lookup(cs, kind).Some? ==> Lookup(cs, kind).value.kind == kind
    decreases |cs|
  {
    if cs != [] {
      LookupKind(cs[1..], kind);
    }
  }

  lemma SameElementsSameMap(a: seq<Condition>, b: seq<Condition>)
    requires UniqueTypes(a) && UniqueTypes(b) && multiset(Timeless(a)) == multiset(Timeless(b))
    ensures SameConditions(a, b)
  {
    forall kind
      ensures Lookup(a, kind) == Lookup(b, kind)
    {
      LookupKind(a, kind);
      LookupKind(b, kind);
      if Lookup(a, kind).Some? {
        Carries(a, b, Lookup(a, kind).value);
      } else if Lookup(b, kind).Some? {
        Carries(b, a, Lookup(b, kind).value);
      }
    }
  }

  lemma Carries(a: seq<Condition>, b: seq<Condition>, c: Condition)
    requires UniqueTypes(a) && UniqueTypes(b) && multiset(Timeless(a)) == multiset(Timeless(b))
    requires Lookup(a, c.kind) == Some(c)
    ensures Lookup(b, c.kind) == Some(c)
  {
    LookupMeansMember(a, c);
    assert c in multiset(Timeless(a));
    LookupMeansMember(b, c);
  }

  lemma SameMapSameElements(a: seq<Condition>, b: seq<Condition>)
    requires UniqueTypes(a) && UniqueTypes(b) && SameConditions(a, b)
    ensures multiset(Timeless(a)) == multiset(Timeless(b))
  {
    forall c
      ensures multiset(Timeless(a))[c] == multiset(Timeless(b))[c]
    {
      LookupMeansMember(a, c);
      LookupMeansMember(b, c);
      MemberOnce(Timeless(a), c);
      MemberOnce(Timeless(b), c);
    }
  }

  lemma {:induction false} MemberOnce(cs: seq<Condition>, c: Condition)
    requires UniqueTypes(cs)
    ensures multiset(cs)[c] == if c in cs then 1 else 0
    decreases |cs|
  {
    if cs != [] {
      assert cs == [cs[0]] + cs[1..];
      MemberOnce(cs[1..], c);
    }
  }

  // ---------------------------------------------------------------- one pass

  /** SetConditions for one type: the first condition of that type is rewritten, or one is appended. The time
      moves only when the status changes. */
  function Upsert(
    cs: seq<Condition>, kind: string, status: string, reason: string, message: string, now: int): seq<Condition>
  {
    if cs == [] then [Condition(kind, status, reason, message, 0, now)]
    else if cs[0].kind == kind then
      [cs[0].(status := status, reason := reason, message := message,
              time := if cs[0].status == status then cs[0].time else now)] + cs[1..]
    else [cs[0]] + Upsert(cs[1..], kind, status, reason, message, now)
  }

  function SetConditions(
    cs: seq<Condition>, degraded: string, ready: string, reason: string, message: string, now: int): seq<Condition>
  {
    var one := Upsert(cs, "Degraded", degraded, reason, message, now);
    var two := Upsert(one, "Progressing", "False", reason, message, now);
    Upsert(two, "Ready", ready, reason, message, now)
  }

  datatype Secret = NoSecret | Present(generation: int) | Missing(error: string) | Unavailable

  /** What a pass reads apart from the status: the generation, the secret, and what validation says. */
  datatype Inputs = Inputs(generation: int, secret: Secret, invalid: Option<string>)

  /** strconv over the attempts counter. */
  datatype Numerals = Numerals(parse: string -> Option<int>, format: int -> string)

  ghost predicate RoundTrips(n: Numerals) {
    forall i :: n.parse(n.format(i)) == Some(i)
  }

  const ATTEMPTS := "validation.attempts"
  const SECRET_GENERATION := "secret.generation"
  const MAX_ATTEMPTS := 10
  const SUCCESS := "ReconcileSuccess"
  const ERROR := "ReconcileError"

  predicate SecretReady(i: Inputs) {
    i.secret.NoSecret? || i.secret.Present?
  }

  function Attempts(n: Numerals, attributes: map<string, string>): int {
    if ATTEMPTS !in attributes || n.parse(attributes[ATTEMPTS]).None? then 1
    else n.parse(attributes[ATTEMPTS]).value
  }

  /** What a pass has to say in the conditions. */
  datatype Finding = Finding(degraded: string, ready: string, reason: string, message: string)

  function Found(i: Inputs): Option<Finding> {
    if i.secret.Unavailable? then None
    else if i.secret.Missing? then Some(Finding("True", "False", ERROR, i.secret.error))
    else if i.invalid.Some? then Some(Finding("True", "False", ERROR, i.invalid.value))
    else Some(Finding("False", "True", SUCCESS, "Reconciliation successful"))
  }

  function Conditions(i: Inputs, cs: seq<Condition>, now: int): seq<Condition> {
    match Found(i)
    case None => cs
    case Some(f) => SetConditions(cs, f.degraded, f.ready, f.reason, f.message, now)
  }

  function Attributes(n: Numerals, i: Inputs, attributes: map<string, string>): map<string, string> {
    var noted :=
      if i.secret.Present? then attributes[SECRET_GENERATION := n.format(i.secret.generation)] else attributes;
    if !SecretReady(i) then attributes
    else if i.invalid.Some? then noted[ATTEMPTS := n.format(Attempts(n, noted) + 1)]
    else noted - {ATTEMPTS}
  }

  /** The status a pass arrives at. */
  function Computed(n: Numerals, i: Inputs, s: Status, now: int): Status {
    Status(Attributes(n, i, s.attributes), Conditions(i, s.conditions, now), i.generation)
  }

  // ---------------------------------------------------------------- what a pass reports

  /** The type has exactly this status, reason and message. */
  predicate Reads(cs: seq<Condition>, kind: string, status: string, reason: string, message: string) {
    var c := Lookup(cs, kind);
    c.Some? && c.value.status == status && c.value.reason == reason && c.value.message == message
  }

  predicate HasStatus(cs: seq<Condition>, kind: string, status: string) {
    Lookup(cs, kind).Some? && Lookup(cs, kind).value.status == status
  }

  /** The app is in order: it needs no secret or has it, and its package reference is valid. */
  predicate InOrder(i: Inputs) {
    (i.secret.NoSecret? || i.secret.Present?) && i.invalid.None?
  }

  /** The error that a pass ends with, if it reports one. */
  function Complaint(i: Inputs): Option<string> {
    if i.secret.Missing? then Some(i.secret.error) else if i.secret.Unavailable? then None else i.invalid
  }

  /** Attempts so far: a missing or unreadable counter counts as one. */
  function Counted(n: Numerals, attributes: map<string, string>): int {
    if "validation.attempts" in attributes && n.parse(attributes["validation.attempts"]).Some?
    then n.parse(attributes["validation.attempts"]).value else 1
  }

  /** What the conditions say after a pass. A secret that could not be read leaves them alone. */
  ghost predicate ConditionsSay(i: Inputs, before: seq<Condition>, after: seq<Condition>) {
    && (i.secret.Unavailable? ==> SameConditions(before, after))
    && (!i.secret.Unavailable? ==>
          (InOrder(i) <==> HasStatus(after, "Ready", "True") && HasStatus(after, "Degraded", "False")))
    && (InOrder(i) ==>
          && Reads(after, "Ready", "True", "ReconcileSuccess", "Reconciliation successful")
          && Reads(after, "Degraded", "False", "ReconcileSuccess", "Reconciliation successful")
          && Reads(after, "Progressing", "False", "ReconcileSuccess", "Reconciliation successful"))
    && (Complaint(i).Some? ==>
          && Reads(after, "Ready", "False", "ReconcileError", Complaint(i).value)
          && Reads(after, "Degraded", "True", "ReconcileError", Complaint(i).value)
          && Reads(after, "Progressing", "False", "ReconcileError", Complaint(i).value))
    && forall kind :: kind != "Ready" && kind != "Degraded" && kind != "Progressing" ==>
                        Lookup(after, kind) == Lookup(before, kind)
  }

  /** What the attributes say: one attempt more after a rejection, none after a success, and the secret's generation. */
  predicate AttributesSay(n: Numerals, i: Inputs, before: map<string, string>, after: map<string, string>) {
    && (i.secret.Missing? || i.secret.Unavailable? ==> after == before)
    && (i.secret.Present? ==>
          "secret.generation" in after && after["secret.generation"] == n.format(i.secret.generation))
    && (InOrder(i) ==> "validation.attempts" !in after)
    && ((i.secret.NoSecret? || i.secret.Present?) && i.invalid.Some? ==>
          "validation.attempts" in after && after["validation.attempts"] == n.format(Counted(n, before) + 1))
    && forall k :: k in before.Keys + after.Keys && k != "validation.attempts"
                   && (k != "secret.generation" || !i.secret.Present?) ==>
                     k in before && k in after && after[k] == before[k]
  }

  /** The whole report of a pass, in the words of the status. */
  ghost predicate Reported(n: Numerals, i: Inputs, before: Status, after: Status) {
    && after.observedGeneration == i.generation
    && ConditionsSay(i, before.conditions, after.conditions)
    && AttributesSay(n, i, before.attributes, after.attributes)
  }

  lemma ComputedReports(n: Numerals, i: Inputs, s: Status, now: int)
    ensures Reported(n, i, s, Computed(n, i, s, now))
  {
    ConditionsReport(i, s.conditions, now);
    AttributesReport(n, i, s.attributes);
  }

  lemma ConditionsReport(i: Inputs, cs: seq<Condition>, now: int)
    ensures ConditionsSay(i, cs, Conditions(i, cs, now))
  {
    if Found(i).Some? {
      var f := Found(i).value;
      SetConditionsReads(cs, f.degraded, f.ready, f.reason, f.message, now);
      SetConditionsLeaves(cs, f.degraded, f.ready, f.reason, f.message, now);
    }
  }

  lemma AttributesReport(n: Numerals, i: Inputs, attributes: map<string, string>)
    ensures AttributesSay(n, i, attributes, Attributes(n, i, attributes))
  {
    assert |ATTEMPTS| == 19 && |SECRET_GENERATION| == 17;
  }

  lemma SetConditionsLeaves(
    cs: seq<Condition>, degraded: string, ready: string, reason: string, message: string, now: int)
    ensures var r := SetConditions(cs, degraded, ready, reason, message, now);
            forall kind :: kind != "Ready" && kind != "Degraded" && kind != "Progressing" ==>
                             Lookup(r, kind) == Lookup(cs, kind)
  {
    var one := Upsert(cs, "Degraded", degraded, reason, message, now);
    var two := Upsert(one, "Progressing", "False", reason, message, now);
    forall kind | kind != "Ready" && kind != "Degraded" && kind != "Progressing"
      ensures Lookup(SetConditions(cs, degraded, ready, reason, message, now), kind) == Lookup(cs, kind)
    {
      UpsertReads(cs, "Degraded", degraded, reason, message, now, kind);
      UpsertReads(one, "Progressing", "False", reason, message, now, kind);
      UpsertReads(two, "Ready", ready, reason, message, now, kind);
    }
  }

  /** A status that agrees with the computed one says the same. */
  lemma AgreementReports(n: Numerals, i: Inputs, before: Status, c: Status)
    requires Reported(n, i, before, c) && SameStatus(before, c)
    ensures Reported(n, i, before, before)
  {
    assert Lookup(before.conditions, "Ready") == Lookup(c.conditions, "Ready");
    assert Lookup(before.conditions, "Degraded") == Lookup(c.conditions, "Degraded");
    assert Lookup(before.conditions, "Progressing") == Lookup(c.conditions, "Progressing");
  }

  datatype UpdateOutcome = Accepted | Conflict | Refused
  datatype Result = Settled | Requeued | Failed

  class App {
    const numerals: Numerals
    var stored: Status // what the API server has
    var writes: nat

    constructor (numerals: Numerals, stored: Status)
      ensures this.numerals == numerals && this.stored == stored && writes == 0
    {
      this.numerals, this.stored, writes := numerals, stored, 0;
    }

    /** A pass: the status is worked out on a copy, and written when it differs from the one observed. A
        refused write is the pass's error; a conflict only requeues it. */
    method Reconcile(i: Inputs, now: int, outcome: UpdateOutcome) returns (r: Result, tried: bool)
      requires UniqueTypes(stored.conditions)
      modifies this`stored, this`writes
      ensures UniqueTypes(stored.conditions)
      ensures tried <==> !SameStatus(old(stored), Computed(numerals, i, old(stored), now))
      ensures tried && outcome.Accepted? ==>
                stored == Computed(numerals, i, old(stored), now) && writes == old(writes) + 1
      ensures !(tried && outcome.Accepted?) ==> stored == old(stored) && writes == old(writes)
      ensures tried && outcome.Conflict? ==> r == Requeued
      ensures tried && outcome.Refused? ==> r == Failed
      ensures !tried || outcome.Accepted? ==> Reported(numerals, i, old(stored), stored)
      ensures !tried || outcome.Accepted? ==>
                && (r == Settled <==> InOrder(i))
                && (r == Requeued <==>
                      || i.secret.Missing?
                      || ((i.secret.NoSecret? || i.secret.Present?) && i.invalid.Some?
                          && Counted(numerals, old(stored).attributes) + 1 <= 10))
    {
      var status;
      status, r := Work(i, now);
      status := status.(observedGeneration := i.generation);
      ComputedReports(numerals, i, stored, now);
      if SameStatus(stored, status) {
        AgreementReports(numerals, i, stored, status);
      }
      ComputedUnique(numerals, i, stored, now);
      var equal := ObjectStatusEqual(stored, status);
      tried := !equal;
      if equal {
        return;
      }
      match outcome
      case Accepted =>
        stored, writes := status, writes + 1;
      case Conflict =>
        r := Requeued;
      case Refused =>
        r := Failed;
    }

    method Work(i: Inputs, now: int) returns (status: Status, r: Result)
      ensures status.(observedGeneration := i.generation) == Computed(numerals, i, stored, now)
      ensures r == Verdict(numerals, i, stored)
    {
      status := stored;
      if i.secret.Missing? {
        status := status.(conditions := SetConditions(status.conditions, "True", "False", ERROR, i.secret.error, now));
        return status, Requeued;
      }
      if i.secret.Unavailable? {
        return status, Failed;
      }
      if i.secret.Present? {
        status := status.(attributes := status.attributes[SECRET_GENERATION := numerals.format(i.secret.generation)]);
      }
      var attempts := Attempts(numerals, status.attributes);
      if i.invalid.Some? {
        attempts := attempts + 1;
        status := status.(conditions := SetConditions(status.conditions, "True", "False", ERROR, i.invalid.value, now),
                          attributes := status.attributes[ATTEMPTS := numerals.format(attempts)]);
        r := if attempts <= MAX_ATTEMPTS then Requeued else Failed;
        return;
      }
      status := status.(
        attributes := status.attributes - {ATTEMPTS},
        conditions := SetConditions(status.conditions, "False", "True", SUCCESS, "Reconciliation successful", now));
      r := Settled;
    }
  }

  /** How a pass ends when nothing is wrong with its write. */
  function Verdict(n: Numerals, i: Inputs, s: Status): Result {
    if i.secret.Missing? then Requeued
    else if i.secret.Unavailable? then Failed
    else if i.invalid.None? then Settled
    else if Attempts(n, s.attributes) < MAX_ATTEMPTS then Requeued else Failed
  }

  // ---------------------------------------------------------------- upserts

  lemma {:induction false} UpsertKinds(
    cs: seq<Condition>, kind: string, status: string, reason: string, message: string, now: int)
    requires UniqueTypes(cs)
    ensures var r := Upsert(cs, kind, status, reason, message, now);
            UniqueTypes(r) && forall c :: c in r ==> c.kind == kind || exists d :: d in cs && d.kind == c.kind
    decreases |cs|
  {
    if cs != [] && cs[0].kind != kind {
      UpsertKinds(cs[1..], kind, status, reason, message, now);
      assert cs == [cs[0]] + cs[1..];
    }
  }

  lemma SetConditionsUnique(
    cs: seq<Condition>, degraded: string, ready: string, reason: string, message: string, now: int)
    requires UniqueTypes(cs)
    ensures UniqueTypes(SetConditions(cs, degraded, ready, reason, message, now))
  {
    var one := Upsert(cs, "Degraded", degraded, reason, message, now);
    var two := Upsert(one, "Progressing", "False", reason, message, now);
    UpsertKinds(cs, "Degraded", degraded, reason, message, now);
    UpsertKinds(one, "Progressing", "False", reason, message, now);
    UpsertKinds(two, "Ready", ready, reason, message, now);
  }

  lemma ComputedUnique(n: Numerals, i: Inputs, s: Status, now: int)
    requires UniqueTypes(s.conditions)
    ensures UniqueTypes(Computed(n, i, s, now).conditions)
  {
    if Found(i).Some? {
      var f := Found(i).value;
      SetConditionsUnique(s.conditions, f.degraded, f.ready, f.reason, f.message, now);
    }
  }

  /** An upsert decides its own type and leaves the others. */
  lemma {:induction false} UpsertReads(
    cs: seq<Condition>, kind: string, status: string, reason: string, message: string, now: int, other: string)
    ensures var r := Upsert(cs, kind, status, reason, message, now);
            && Reads(r, kind, status, reason, message)
            && (other != kind ==> Lookup(r, other) == Lookup(cs, other))
    decreases |cs|
  {
    if cs != [] && cs[0].kind != kind {
      UpsertReads(cs[1..], kind, status, reason, message, now, other);
    }
  }

  /** Upserting what is there changes nothing, the time included. */
  lemma {:induction false} UpsertNothing(
    cs: seq<Condition>, kind: string, status: string, reason: string, message: string, now: int)
    requires Reads(cs, kind, status, reason, message)
    ensures Upsert(cs, kind, status, reason, message, now) == cs
    decreases |cs|
  {
    assert cs == [cs[0]] + cs[1..];
    if cs[0].kind != kind {
      UpsertNothing(cs[1..], kind, status, reason, message, now);
    }
  }

  lemma SetConditionsReads(
    cs: seq<Condition>, degraded: string, ready: string, reason: string, message: string, now: int)
    ensures var r := SetConditions(cs, degraded, ready, reason, message, now);
            && Reads(r, "Degraded", degraded, reason, message)
            && Reads(r, "Progressing", "False", reason, message)
            && Reads(r, "Ready", ready, reason, message)
  {
    var one := Upsert(cs, "Degraded", degraded, reason, message, now);
    var two := Upsert(one, "Progressing", "False", reason, message, now);
    UpsertReads(cs, "Degraded", degraded, reason, message, now, "Ready");
    UpsertReads(one, "Progressing", "False", reason, message, now, "Degraded");
    UpsertReads(two, "Ready", ready, reason, message, now, "Degraded");
    UpsertReads(two, "Ready", ready, reason, message, now, "Progressing");
  }

  lemma SetConditionsTwice(
    cs: seq<Condition>, degraded: string, ready: string, reason: string, message: string, now: int, later: int)
    ensures var r := SetConditions(cs, degraded, ready, reason, message, now);
            SetConditions(r, degraded, ready, reason, message, later) == r
  {
    var r := SetConditions(cs, degraded, ready, reason, message, now);
    SetConditionsReads(cs, degraded, ready, reason, message, now);
    UpsertNothing(r, "Degraded", degraded, reason, message, later);
    UpsertNothing(r, "Progressing", "False", reason, message, later);
    UpsertNothing(r, "Ready", ready, reason, message, later);
  }

  /** What an upsert leaves does not depend on the clock, times aside. */
  lemma {:induction false} UpsertIgnoresClock(
    a: seq<Condition>, b: seq<Condition>, kind: string, status: string, reason: string, message: string, t: int, u: int)
    requires Timeless(a) == Timeless(b)
    ensures Timeless(Upsert(a, kind, status, reason, message, t))
         == Timeless(Upsert(b, kind, status, reason, message, u))
    decreases |a|
  {
    assert |a| == |b|;
    if a != [] {
      assert Timeless(a)[0] == Bare(a[0]) && Timeless(b)[0] == Bare(b[0]);
      assert Timeless(a)[1..] == Timeless(a[1..]) && Timeless(b)[1..] == Timeless(b[1..]);
      UpsertIgnoresClock(a[1..], b[1..], kind, status, reason, message, t, u);
      var x, y := Upsert(a, kind, status, reason, message, t), Upsert(b, kind, status, reason, message, u);
      assert Timeless(x) == [Bare(x[0])] + Timeless(x[1..]) && Timeless(y) == [Bare(y[0])] + Timeless(y[1..]);
    }
  }

  lemma SetConditionsIgnoresClock(
    cs: seq<Condition>, ds: seq<Condition>, degraded: string, ready: string, reason: string, message: string,
    t: int, u: int)
    requires Timeless(cs) == Timeless(ds)
    ensures Timeless(SetConditions(cs, degraded, ready, reason, message, t))
         == Timeless(SetConditions(ds, degraded, ready, reason, message, u))
  {
    var a := Upsert(cs, "Degraded", degraded, reason, message, t);
    var b := Upsert(ds, "Degraded", degraded, reason, message, u);
    UpsertIgnoresClock(cs, ds, "Degraded", degraded, reason, message, t, u);
    UpsertIgnoresClock(a, b, "Progressing", "False", reason, message, t, u);
    var a2 := Upsert(a, "Progressing", "False", reason, message, t);
    var b2 := Upsert(b, "Progressing", "False", reason, message, u);
    UpsertIgnoresClock(a2, b2, "Ready", ready, reason, message, t, u);
  }

  lemma {:induction false} TimelessLookup(a: seq<Condition>, b: seq<Condition>, kind: string)
    requires Timeless(a) == Timeless(b)
    ensures Lookup(a, kind) == Lookup(b, kind)
    decreases |a|
  {
    assert |a| == |b|;
    if a != [] {
      assert Timeless(a)[0] == Bare(a[0]) && Timeless(b)[0] == Bare(b[0]);
      assert Timeless(a)[1..] == Timeless(a[1..]) && Timeless(b)[1..] == Timeless(b[1..]);
      TimelessLookup(a[1..], b[1..], kind);
    }
  }

  // ---------------------------------------------------------------- runs

  /** Validation was reached and failed. */
  predicate Rejects(i: Inputs) {
    SecretReady(i) && i.invalid.Some?
  }

  /** The same status but for transition times. */
  predicate SameButTimes(a: Status, b: Status) {
    && a.attributes == b.attributes && a.observedGeneration == b.observedGeneration
    && Timeless(a.conditions) == Timeless(b.conditions)
  }

  lemma ComputedIgnoresClock(n: Numerals, i: Inputs, s: Status, s': Status, t: int, u: int)
    requires SameButTimes(s, s')
    ensures SameButTimes(Computed(n, i, s, t), Computed(n, i, s', u))
  {
    if Found(i).Some? {
      var f := Found(i).value;
      SetConditionsIgnoresClock(s.conditions, s'.conditions, f.degraded, f.ready, f.reason, f.message, t, u);
    }
  }

  lemma SameStatusIgnoresTimes(a: Status, a': Status, b: Status, b': Status)
    requires SameButTimes(a, a') && SameButTimes(b, b')
    ensures SameStatus(a, b) <==> SameStatus(a', b')
  {
    forall kind
      ensures Lookup(a.conditions, kind) == Lookup(a'.conditions, kind)
      ensures Lookup(b.conditions, kind) == Lookup(b'.conditions, kind)
    {
      TimelessLookup(a.conditions, a'.conditions, kind);
      TimelessLookup(b.conditions, b'.conditions, kind);
    }
  }

  /** A pass over its own result arrives at that very status again, exactly when validation did not fail. */
  lemma ComputedSettlesIff(n: Numerals, i: Inputs, s: Status, now: int, later: int)
    requires RoundTrips(n)
    ensures var c := Computed(n, i, s, now);
            && (!Rejects(i) ==> Computed(n, i, c, later) == c)
            && (SameStatus(c, Computed(n, i, c, later)) <==> !Rejects(i))
  {
    var c := Computed(n, i, s, now);
    if Rejects(i) {
      AttemptsGrow(n, i, c, later);
    } else {
      assert Attributes(n, i, c.attributes) == c.attributes;
      if Found(i).Some? {
        var f := Found(i).value;
        SetConditionsTwice(s.conditions, f.degraded, f.ready, f.reason, f.message, now, later);
      }
    }
  }

  /** A failing validation counts every attempt in the status, so that no pass leaves the status alone. */
  lemma AttemptsGrow(n: Numerals, i: Inputs, s: Status, now: int)
    requires RoundTrips(n) && Rejects(i)
    ensures !SameStatus(s, Computed(n, i, s, now))
  {
    var c := Computed(n, i, s, now);
    assert ATTEMPTS != SECRET_GENERATION by {
      assert |ATTEMPTS| == 19 && |SECRET_GENERATION| == 17;
    }
    assert n.parse(c.attributes[ATTEMPTS]) == Some(Attempts(n, s.attributes) + 1);
  }

  /** What the API server holds, and how often it was written, after passes over the same inputs. */
  datatype Pass = Pass(now: int, outcome: UpdateOutcome)
  datatype Served = Served(status: Status, writes: nat)

  ghost function After(n: Numerals, i: Inputs, start: Status, passes: seq<Pass>): Served
    decreases |passes|
  {
    if passes == [] then Served(start, 0)
    else
      var before := After(n, i, start, passes[..|passes| - 1]);
      var p := passes[|passes| - 1];
      var c := Computed(n, i, before.status, p.now);
      if !SameStatus(before.status, c) && p.outcome.Accepted? then Served(c, before.writes + 1) else before
  }

  /** Any run over unchanged inputs writes at most once, unless validation fails: then it writes whenever the
      API server accepts. */
  lemma {:induction false} AtMostOneWrite(n: Numerals, i: Inputs, start: Status, passes: seq<Pass>)
    requires RoundTrips(n)
    ensures var end := After(n, i, start, passes);
            && (!Rejects(i) ==> end.writes <= 1)
            && (!Rejects(i) && end.writes == 0 ==> end.status == start)
            && (!Rejects(i) && end.writes == 1 ==> exists t :: end.status == Computed(n, i, start, t))
            && (Rejects(i) ==> end.writes == AcceptedIn(passes))
    decreases |passes|
  {
    if passes != [] {
      var init, p := passes[..|passes| - 1], passes[|passes| - 1];
      AtMostOneWrite(n, i, start, init);
      var before := After(n, i, start, init);
      if Rejects(i) {
        AttemptsGrow(n, i, before.status, p.now);
      } else if before.writes == 1 {
        var t :| before.status == Computed(n, i, start, t);
        ComputedSettlesIff(n, i, start, t, p.now);
      }
    }
  }

  function AcceptedIn(passes: seq<Pass>): nat {
    if passes == [] then 0
    else AcceptedIn(passes[..|passes| - 1]) + if passes[|passes| - 1].outcome.Accepted? then 1 else 0
  }

  /** Whether a pass writes never depends on its clock: runs that differ in their clocks only write in the same
      passes, and leave the same status but for times. */
  lemma {:induction false} RunIgnoresClock(n: Numerals, i: Inputs, start: Status, ps: seq<Pass>, qs: seq<Pass>)
    requires |ps| == |qs| && forall k :: 0 <= k < |ps| ==> ps[k].outcome == qs[k].outcome
    ensures var a, b := After(n, i, start, ps), After(n, i, start, qs);
            a.writes == b.writes && SameButTimes(a.status, b.status)
    decreases |ps|
  {
    if ps != [] {
      var p, q := ps[|ps| - 1], qs[|qs| - 1];
      RunIgnoresClock(n, i, start, ps[..|ps| - 1], qs[..|qs| - 1]);
      var a, b := After(n, i, start, ps[..|ps| - 1]).status, After(n, i, start, qs[..|qs| - 1]).status;
      ComputedIgnoresClock(n, i, a, b, p.now, q.now);
      SameStatusIgnoresTimes(a, b, Computed(n, i, a, p.now), Computed(n, i, b, q.now));
    }
  }
}
